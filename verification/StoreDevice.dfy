/** `struct scull_dev` and its calls, working on kernel memory. */
module StoreDevice {
  import opened Kernel
  import opened StoreSpec
  import opened StoreMemory
  import opened StoreFlat

  /** The kernel's memory. Cells are handed out by kmalloc and taken back by kfree. */
  class Heap {
    var cells: Cells

    constructor ()
      ensures cells == map[]
    {
      cells := map[];
    }

    method Kmalloc(c: Cell) returns (p: Ptr)
      modifies this
      ensures p != NULL && p !in old(cells) && cells == old(cells)[p := c]
    {
      p := Unused(cells.Keys, 1);
      cells := cells[p := c];
    }

    /** Freeing what is not allocated would be a double free. */
    method Kfree(p: Ptr)
      requires p in cells
      modifies this
      ensures cells == old(cells) - {p}
    {
      cells := cells - {p};
    }
  }

  /** The allocator behind `dev->type`. A cache hands out objects of the size it was created
      with, a page allocator `PAGE_SIZE << order` bytes; only kmalloc follows the quantum. */
  datatype Kind = Basic | Cache(objsize: nat) | Pages(bytes: nat)

  function Capacity(kind: Kind, quantum: nat): nat {
    match kind
    case Basic => quantum
    case Cache(objsize) => objsize
    case Pages(bytes) => bytes
  }

  /** A write at `pos` would allocate a block shorter than the quantum. */
  predicate MakesShort(kind: Kind, st: Store, pos: nat, memory: Kernel.Memory)
    requires Ok(st)
  {
    && Allocates(st, Locate(pos, st.quantum, st.qset), memory)
    && st.quantum > Capacity(kind, st.quantum)
  }

  class Device {
    const heap: Heap
    const kind: Kind
    var data: Ptr
    var quantum: nat
    var qset: nat
    var size: nat
    var overran: bool             // some access has passed the end of its block
    ghost var image: Image        // the cells it owns
    ghost var items: seq<Item>    // what they hold

    ghost function St(): Store
      reads this
    {
      Store(items, quantum, qset, size)
    }

    ghost predicate Valid()
      reads this, heap
    {
      && GeometryOk(quantum, qset) && Rep(heap.cells, image, data, items, quantum, qset)
      && Sized(heap.cells, image, Capacity(kind, quantum), overran || Fits())
    }

    /** What the allocator hands out holds a whole quantum. */
    predicate Fits()
      reads this
    {
      quantum <= Capacity(kind, quantum)
    }

    constructor (heap: Heap, kind: Kind, quantum: nat, qset: nat)
      requires GeometryOk(quantum, qset)
      ensures Valid() && this.heap == heap && this.kind == kind
      ensures St() == Trimmed(quantum, qset) && image == Image([], map[]) && !overran
    {
      this.heap, this.kind := heap, kind;
      this.quantum, this.qset, this.size := quantum, qset, 0;
      data, overran := NULL, false;
      image, items := Image([], map[]), [];
    }

    /** kmalloc, memset, and the link from the previous node or from the device. */
    method Link(prev: Ptr) returns (p: Ptr)
      requires Valid()
      requires prev == if |image.nodes| == 0 then NULL else image.nodes[|image.nodes| - 1]
      modifies this`data, this`image, this`items, heap
      ensures Valid()
      ensures image.nodes == old(image.nodes) + [p] && items == old(items) + [None] && p != NULL
      ensures Grows(old(heap.cells), old(image), heap.cells, image)
    {
      ghost var m, x := heap.cells, image;
      LastNode(m, x, data, items, quantum, qset);
      p := heap.Kmalloc(Node(NULL, NULL));
      LinkRep(m, x, data, items, quantum, qset, p);
      LinkGrows(m, x, data, items, quantum, qset, p);
      LinkSized(m, x, data, items, quantum, qset, p, Capacity(kind, quantum), overran || Fits());
      if prev == NULL {
        data := p;
      } else {
        heap.cells := heap.cells[prev := heap.cells[prev].(next := p)];
      }
      assert heap.cells == LinkCells(m, x.nodes, p);
      image, items := LinkImage(image, p), items + [None];
    }

    /** The head of the list, allocated if there is none; null if memory ran out. */
    method Head(memory: Kernel.Memory) returns (qs: Ptr, left: Kernel.Memory)
      requires Valid()
      modifies this`data, this`image, this`items, heap
      ensures Valid() && Grows(old(heap.cells), old(image), heap.cells, image)
      ensures qs == data
      ensures if old(items) != [] then items == old(items) && left == memory
              else if memory.CanAlloc() then items == [None] && left == memory.Used()
              else items == [] && left == memory
    {
      NullHead(heap.cells, image, data, items, quantum, qset);
      GrowsReflexive(heap.cells, image, data, items, quantum, qset);
      qs, left := data, memory;
      if data == NULL && left.CanAlloc() {
        left := left.Used();
        qs := Link(NULL);
      }
    }

    /** One turn of the walk: go to the node after `prev`, allocated if there is none, and look
        up its successor. */
    method Reach(prev: Ptr, next: Ptr, ghost done: nat, memory: Kernel.Memory)
      returns (qs: Ptr, next': Ptr, left: Kernel.Memory)
      requires Valid() && done <= |image.nodes| && |image.nodes| > 0
      requires prev == if done == 0 then NULL else image.nodes[done - 1]
      requires next == if done < |image.nodes| then image.nodes[done] else NULL
      modifies this`data, this`image, this`items, heap
      ensures Valid() && Grows(old(heap.cells), old(image), heap.cells, image)
      ensures qs != NULL <==> done < |items|
      ensures qs != NULL ==> qs == image.nodes[done] && next' == NextOf(image.nodes, done)
      ensures if done < |old(items)| then items == old(items) && left == memory
              else if memory.CanAlloc() then items == old(items) + [None] && left == memory.Used()
              else items == old(items) && left == memory
    {
      GrowsReflexive(heap.cells, image, data, items, quantum, qset);
      if done < |image.nodes| {
        NodeAt(heap.cells, image, data, items, quantum, qset, done);
      }
      qs, next', left := next, NULL, memory;
      if qs == NULL {
        if !left.CanAlloc() {
          return;
        }
        left := left.Used();
        qs := Link(prev);
      }
      NodeAt(heap.cells, image, data, items, quantum, qset, done);
      next' := heap.cells[qs].next;
    }

    /** The walk of scull_follow from an existing head to node number `item`. */
    method Walk(item: nat, memory: Kernel.Memory) returns (r: Ptr, left: Kernel.Memory)
      requires Valid() && |items| > 0
      modifies this`data, this`image, this`items, heap
      ensures Valid() && Grows(old(heap.cells), old(image), heap.cells, image)
      ensures Extended(old(items), memory, items, left)
      ensures items == Followed(old(items), item, memory)
      ensures r != NULL <==> item < |items|
      ensures r != NULL ==> r == image.nodes[item]
    {
      hide Grows, GeometryOk, NodeRep, InPlace;
      ghost var m0, x0 := heap.cells, image;
      GrowsReflexive(m0, x0, data, items, quantum, qset);
      var qs, prev := data, NULL;
      left := memory;
      var it: int := item;
      ghost var done := 0;
      while it >= 0
        invariant it == item - done && 0 <= done <= |items| && it >= -1
        invariant Valid() && |items| > 0
        invariant prev == if done == 0 then NULL else image.nodes[done - 1]
        invariant qs == if done < |items| then image.nodes[done] else NULL
        invariant |items| == |old(items)| || |items| == done
        invariant done > 0 ==> prev != NULL
        invariant Extended(old(items), memory, items, left)
        invariant Grows(m0, x0, heap.cells, image)
      {
        ghost var m1, x1 := heap.cells, image;
        var here, next;
        here, next, left := Reach(prev, qs, done, left);
        GrowsTransitive(m0, x0, m1, x1, heap.cells, image);
        prev, qs := here, next;
        if here == NULL {
          break;
        }
        it := it - 1;
        done := done + 1;
      }
      r := prev;
    }

    /** scull_follow: node number `item`, the list extended with empty nodes as far as needed
        and as far as memory goes; null if memory ran out or `item` is negative. */
    method Follow(item: int, memory: Kernel.Memory) returns (r: Ptr, left: Kernel.Memory)
      requires Valid()
      modifies this`data, this`image, this`items, heap
      ensures Valid() && Grows(old(heap.cells), old(image), heap.cells, image)
      ensures items == Followed(old(items), item, memory)
      ensures r != NULL <==> Found(|old(items)|, item, memory)
      ensures r != NULL ==> item < |items| && r == image.nodes[item]
      ensures Extended(old(items), memory, items, left)
    {
      hide Grows, GeometryOk, NodeRep, InPlace;
      ghost var m0, x0 := heap.cells, image;
      var qs;
      qs, left := Head(memory);
      NullHead(heap.cells, image, data, items, quantum, qset);
      if qs == NULL || item < 0 {
        r := NULL;
        return;
      }
      ghost var m1, x1 := heap.cells, image;
      r, left := Walk(item, left);
      GrowsTransitive(m0, x0, m1, x1, heap.cells, image);
    }

    /** The pointer array of node `n`, allocated and cleared if there is none. */
    method NeedTable(n: Ptr, ghost k: nat, memory: Kernel.Memory) returns (ok: bool, left: Kernel.Memory)
      requires Valid() && k < |items| && n == image.nodes[k]
      modifies this`image, this`items, heap
      ensures Valid() && Grows(old(heap.cells), old(image), heap.cells, image) && image.nodes == old(image.nodes)
      ensures ok <==> old(items[k]).Some? || memory.CanAlloc()
      ensures items == if ok then WithTable(old(items), k, qset) else old(items)
      ensures ok ==> |items| == |old(items)| && items[k].Some?
      ensures left == if ok && old(items[k]).None? then memory.Used() else memory
    {
      ghost var m, x := heap.cells, image;
      TableAt(m, x, data, items, quantum, qset, k);
      GrowsReflexive(m, x, data, items, quantum, qset);
      left := memory;
      if heap.cells[n].data == NULL {
        if !left.CanAlloc() {
          return false, left;
        }
        left := left.Used();
        var d := heap.Kmalloc(Table(seq(qset, _ => NULL)));
        AddTable(m, x, data, items, quantum, qset, k, d);
        heap.cells := heap.cells[n := heap.cells[n].(data := d)];
        assert heap.cells == TableCells(m, n, d, qset);
        TableSized(m, x, n, d, qset, k, Capacity(kind, quantum), overran || Fits());
        GrowsByOne(m, x, heap.cells, d, AsTable(k), n);
        image := image.(role := image.role[d := AsTable(k)]);
        items := items[k := Some(Nones(qset))];
      }
      ok := true;
    }

    /** The quantum of slot `j`, allocated by the device's allocator and cleared if there is
        none. `junk` is what the allocator left in the block. */
    method NeedBlock(n: Ptr, ghost k: nat, j: nat, memory: Kernel.Memory, junk: Byte) returns (ok: bool, left: Kernel.Memory)
      requires Valid() && k < |items| && n == image.nodes[k] && items[k].Some? && j < qset
      modifies this`image, this`items, this`overran, heap
      ensures Valid() && Grows(old(heap.cells), old(image), heap.cells, image) && image.nodes == old(image.nodes)
      ensures |old(items[k]).value| == qset
      ensures ok <==> old(items[k]).value[j].Some? || memory.CanAlloc()
      ensures items == if ok then WithBlock(old(items), k, j, quantum) else old(items)
      ensures left == if ok && old(items[k]).value[j].None? then memory.Used() else memory
      ensures overran <==> old(overran) || (ok && old(items[k]).value[j].None? && !Fits())
    {
      ghost var m, x := heap.cells, image;
      BlockAt(m, x, data, items, quantum, qset, k, j);
      GrowsReflexive(m, x, data, items, quantum, qset);
      left := memory;
      var d := heap.cells[n].data;
      if heap.cells[d].slots[j] == NULL {
        if !left.CanAlloc() {
          return false, left;
        }
        left := left.Used();
        var len := Capacity(kind, quantum);
        var raw := seq(len, _ => junk);
        var cleared := Block(len, Zeros(quantum) + (if quantum <= len then raw[quantum..] else []));
        overran := overran || quantum > len;
        var b := heap.Kmalloc(cleared);
        AddBlock(m, x, data, items, quantum, qset, k, j, b, cleared);
        BlockSized(m, x, d, k, j, b, cleared, old(overran) || Fits(), overran || Fits());
        heap.cells := heap.cells[d := Table(heap.cells[d].slots[j := b])];
        assert heap.cells == BlockCells(m, d, j, b, cleared);
        GrowsByOne(m, x, heap.cells, b, AsBlock(k, j), d);
        image := image.(role := image.role[b := AsBlock(k, j)]);
        items := WithBlock(items, k, j, quantum);
      }
      ok := true;
    }

    /** copy_from_user into the quantum of slot `j`, from byte `q` on. */
    method CopyIn(n: Ptr, ghost k: nat, j: nat, q: nat, bytes: seq<Byte>)
      requires Valid() && k < |items| && n == image.nodes[k] && items[k].Some? && j < qset
      requires |items[k].value| == qset && items[k].value[j].Some? && q + |bytes| <= quantum
      modifies this`items, this`overran, heap
      ensures Valid() && Grows(old(heap.cells), image, heap.cells, image) && overran == old(overran)
      ensures |old(items[k]).value[j].value| == quantum
      ensures items == WithBytes(old(items), k, j, q, bytes)
    {
      ghost var m, x := heap.cells, image;
      BlockAt(m, x, data, items, quantum, qset, k, j);
      GrowsReflexive(m, x, data, items, quantum, qset);
      var b := heap.cells[heap.cells[n].data].slots[j];
      var was := heap.cells[b].bytes;
      var now := was[..q] + bytes + was[q + |bytes|..];
      overran := overran || q + |bytes| > heap.cells[b].len;
      SetBlock(m, x, data, items, quantum, qset, k, j, now);
      heap.cells := heap.cells[b := Block(heap.cells[b].len, now)];
      assert now[..quantum] == Patched(was[..quantum], q, bytes);
      items := WithBytes(items, k, j, q, bytes);
    }

    /** Everything scull_write does before the copy. */
    method PrepareSlot(p: Place, memory: Kernel.Memory, junk: Byte) returns (n: Ptr, ok: bool)
      requires Valid() && p.s < qset
      modifies this`data, this`image, this`items, this`overran, heap
      ensures Valid() && Grows(old(heap.cells), old(image), heap.cells, image)
      ensures Ok(old(St())) && (items, ok) == Prepare(old(St()), p, memory)
      ensures ok ==> p.item < |image.nodes| && n == image.nodes[p.item]
      ensures overran <==> old(overran) || (Allocates(old(St()), p, memory) && !Fits())
    {
      hide Grows, GeometryOk, NodeRep, InPlace, Sized, HasBlock, Prepare, Allocates, Followed, WithTable, WithBlock, Extended;
      ghost var m0, x0 := heap.cells, image;
      RepItemsOk(m0, x0, data, items, quantum, qset);
      var left;
      n, left := Follow(p.item, memory);
      PrepareCases(old(St()), p, memory, left);
      if n == NULL {
        return n, false;
      }
      ghost var m1, x1 := heap.cells, image;
      ok, left := NeedTable(n, p.item, left);
      GrowsTransitive(m0, x0, m1, x1, heap.cells, image);
      if !ok {
        return;
      }
      ghost var m2, x2 := heap.cells, image;
      ok, left := NeedBlock(n, p.item, p.s, left, junk);
      GrowsTransitive(m0, x0, m2, x2, heap.cells, image);
    }

    /** scull_write on the store, and the position it leaves in the file. */
    method Write(pos: nat, buff: seq<Byte>, memory: Kernel.Memory, garbage: Option<seq<Byte>>, junk: Byte)
      returns (r: Result, pos': nat)
      requires Valid()
      requires garbage.Some? ==> |garbage.value| <= WriteLen(St(), pos, |buff|)
      modifies this`data, this`image, this`items, this`size, this`overran, heap
      ensures Valid() && Grows(old(heap.cells), old(image), heap.cells, image)
      ensures Ok(old(St())) && (St(), r) == StoreSpec.Write(old(St()), pos, buff, memory, garbage)
      ensures pos' == if r.Moved? then pos + r.n else pos
      ensures r.Moved? ==> FillsQuantum(pos, |buff|, r.n, quantum) && size == old(size) + r.n
      ensures overran <==> old(overran) || (Allocates(old(St()), Locate(pos, quantum, qset), memory) && !Fits())
    {
      hide Grows, NodeRep, InPlace, Sized;
      ghost var m0, x0, st0 := heap.cells, image, St();
      WriteLenFills(st0, pos, |buff|);
      hide FillsQuantum;
      pos' := pos;
      var p := Locate(pos, quantum, qset);
      var n, ok := PrepareSlot(p, memory, junk);
      if !ok {
        return Failed(ENOMEM), pos';
      }
      var count := |buff|;
      if count > quantum - p.q {
        count := quantum - p.q;
      }
      ghost var m1, x1 := heap.cells, image;
      if garbage.Some? {
        CopyIn(n, p.item, p.s, p.q, garbage.value);
        GrowsTransitive(m0, x0, m1, x1, heap.cells, image);
        return Failed(EFAULT), pos';
      }
      CopyIn(n, p.item, p.s, p.q, buff[..count]);
      GrowsTransitive(m0, x0, m1, x1, heap.cells, image);
      size := size + count;
      return Moved(count), pos + count;
    }

    /** The block that holds place `p`, or null: scull_follow and the three null tests of
        scull_read. */
    method Lookup(p: Place, memory: Kernel.Memory) returns (b: Ptr)
      requires Valid() && p.s < qset
      modifies this`data, this`image, this`items, heap
      ensures Valid() && Grows(old(heap.cells), old(image), heap.cells, image)
      ensures items == Followed(old(items), p.item, memory) && ItemsOk(items, quantum, qset)
      ensures b != NULL <==> Found(|old(items)|, p.item, memory) && items[p.item].Some? && items[p.item].value[p.s].Some?
      ensures b != NULL ==> b in heap.cells && heap.cells[b].Block? && quantum <= |heap.cells[b].bytes|
      ensures b != NULL ==> items[p.item].value[p.s].value == heap.cells[b].bytes[..quantum]
      ensures b != NULL ==> heap.cells[b].len == Capacity(kind, quantum) && (overran || Fits())
    {
      b := NULL;
      var n, left := Follow(p.item, memory);
      RepItemsOk(heap.cells, image, data, items, quantum, qset);
      if n == NULL {
        return;
      }
      TableAt(heap.cells, image, data, items, quantum, qset, p.item);
      var d := heap.cells[n].data;
      if d == NULL {
        return;
      }
      BlockAt(heap.cells, image, data, items, quantum, qset, p.item, p.s);
      b := heap.cells[d].slots[p.s];
    }

    /** scull_read on the store, and the position it leaves in the file. */
    method Read(pos: nat, count: nat, memory: Kernel.Memory, copied: bool) returns (r: ReadResult, pos': nat)
      requires Valid()
      modifies this`data, this`image, this`items, this`overran, heap
      ensures Valid() && Grows(old(heap.cells), old(image), heap.cells, image) && overran == old(overran)
      ensures Ok(old(St())) && (St(), r) == StoreSpec.Read(old(St()), pos, count, memory, copied)
      ensures pos' == if r.Got? then pos + |r.bytes| else pos
    {
      hide Grows, NodeRep, InPlace;
      RepItemsOk(heap.cells, image, data, items, quantum, qset);
      pos' := pos;
      if pos >= size {
        GrowsReflexive(heap.cells, image, data, items, quantum, qset);
        return Got([]), pos';
      }
      var p := Locate(pos, quantum, qset);
      var b := Lookup(p, memory);
      if b == NULL {
        return Got([]), pos';
      }
      var len := if count > size - pos then size - pos else count;
      if len > quantum - p.q {
        len := quantum - p.q;
      }
      overran := overran || p.q + len > heap.cells[b].len;
      if !copied {
        return ReadFailed(EFAULT), pos';
      }
      var block := heap.cells[b].bytes[..quantum];
      return Got(block[p.q .. p.q + len]), pos + len;
    }

    /** The inner loop of scull_trim: the blocks of one node, then its pointer array. */
    method FreeTable(table: Ptr, ghost m: Cells, ghost i: nat)
      requires Rep(m, image, data, items, quantum, qset) && i < |items|
      requires image.nodes[i] in m && m[image.nodes[i]].Node? && table == m[image.nodes[i]].data && table != NULL
      requires heap.cells == m - Freed(image, i, 0)
      modifies heap
      ensures heap.cells == m - Freed(image, i, qset) - {table}
    {
      FreedNode(m, image, data, items, quantum, qset, i);
      TableAt(m, image, data, items, quantum, qset, i);
      for j := 0 to qset
        invariant heap.cells == m - Freed(image, i, j)
      {
        FreedSlot(m, image, data, items, quantum, qset, i, j);
        assert table !in Freed(image, i, j);
        var b := heap.cells[table].slots[j];
        if b != NULL {
          heap.Kfree(b);
        }
      }
      heap.Kfree(table);
    }

    /** One turn of the outer loop: a node with all that hangs on it. */
    method FreeNode(dptr: Ptr, ghost m: Cells, ghost i: nat) returns (next: Ptr)
      requires Rep(m, image, data, items, quantum, qset) && i < |items| && dptr == image.nodes[i]
      requires heap.cells == m - Freed(image, i, 0)
      modifies heap
      ensures heap.cells == m - Freed(image, i + 1, 0)
      ensures next == NextOf(image.nodes, i)
    {
      NodeAt(m, image, data, items, quantum, qset, i);
      FreedNode(m, image, data, items, quantum, qset, i);
      assert dptr !in Freed(image, i, 0);
      next := heap.cells[dptr].next;
      var table := heap.cells[dptr].data;
      if table != NULL {
        FreeTable(table, m, i);
      }
      heap.Kfree(dptr);
    }

    /** scull_trim: exactly the device's cells are freed, each once, and the device is empty
        under the current global geometry. */
    method Trim(globalQuantum: nat, globalQset: nat)
      requires Valid() && GeometryOk(globalQuantum, globalQset)
      modifies this, heap
      ensures Valid() && St() == Trimmed(globalQuantum, globalQset) && image == Image([], map[])
      ensures overran == old(overran)
      ensures heap.cells == old(heap.cells) - old(image).role.Keys
    {
      ghost var m, i := heap.cells, 0;
      var dptr := data;
      FreedNothing(image);
      while dptr != NULL
        invariant 0 <= i <= |items| && dptr == if i < |items| then image.nodes[i] else NULL
        invariant heap.cells == m - Freed(image, i, 0)
        decreases |items| - i
        modifies heap
      {
        dptr := FreeNode(dptr, m, i);
        i := i + 1;
      }
      NoMore(m, image, data, items, quantum, qset, i);
      FreedAll(m, image, data, items, quantum, qset);
      size, data := 0, NULL;
      qset, quantum := globalQset, globalQuantum;
      image, items := Image([], map[]), [];
    }
  }

  /** What is left to do for a write once scull_follow is back, with `left` memory. */
  lemma PrepareCases(st: Store, p: Place, memory: Kernel.Memory, left: Kernel.Memory)
    requires Ok(st) && p.s < st.qset && Extended(st.items, memory, Followed(st.items, p.item, memory), left)
    ensures var items := Followed(st.items, p.item, memory);
      if !Found(|st.items|, p.item, memory) then Prepare(st, p, memory) == (items, false) && !Allocates(st, p, memory)
      else if items[p.item].None? && !left.CanAlloc()
      then Prepare(st, p, memory) == (items, false) && !Allocates(st, p, memory)
      else
        var left' := if items[p.item].None? then left.Used() else left;
        var items' := WithTable(items, p.item, st.qset);
        && |items'[p.item].value| == st.qset
        && var ok := items'[p.item].value[p.s].Some? || left'.CanAlloc();
        && Prepare(st, p, memory) == (if ok then WithBlock(items', p.item, p.s, st.quantum) else items', ok)
        && (Allocates(st, p, memory) <==> ok && items'[p.item].value[p.s].None?)
  {
  }

  /** The list grew by empty nodes, one allocation each. */
  predicate Extended(items: seq<Item>, memory: Kernel.Memory, items': seq<Item>, left: Kernel.Memory) {
    && |items| <= |items'|
    && items' == items + Nones(|items'| - |items|)
    && Spent(memory, |items'| - |items|, left)
  }

  /** `used` allocations lead from `memory` to `left`. */
  predicate Spent(memory: Kernel.Memory, used: int, left: Kernel.Memory) {
    if memory.Ample? then left.Ample? else left.Scarce? && 0 <= used <= memory.n && left.n == memory.n - used
  }

  lemma NoMore(m: Cells, x: Image, head: Ptr, items: seq<Item>, quantum: nat, qset: nat, i: nat)
    requires Rep(m, x, head, items, quantum, qset) && i <= |items|
    requires (if i < |items| then x.nodes[i] else NULL) == NULL
    ensures i == |items|
  {
    if i < |items| { NodeAt(m, x, head, items, quantum, qset, i); }
  }
}
