/** `struct scull_pipe` and the bodies its calls run while they hold the semaphore;
    PipeRefinement proves them to be the steps of PipeProtocol inside the critical section. */
module PipeDevice {
  import opened Kernel
  import opened Ring

  class ScullPipe {
    const buffersize: nat
    var buffer: array?<Byte>
    var rp: nat
    var wp: nat
    var nreaders: int
    var nwriters: int

    ghost predicate Valid()
      reads this, buffer
    {
      buffersize > 0 &&
      (buffer != null ==> buffer.Length == buffersize && rp < buffersize && wp < buffersize)
    }

    ghost function View(): Ring
      requires buffer != null
      reads this, buffer
    {
      Ring(buffer[..], rp, wp)
    }

    /** scull_p_init: no buffer until the first open. */
    constructor (size: nat)
      requires size > 0
      ensures Valid() && buffersize == size && buffer == null
      ensures nreaders == 0 && nwriters == 0
    {
      buffersize := size;
      buffer := null;
      rp, wp, nreaders, nwriters := 0, 0, 0, 0;
    }

    /** `spacefree`: what the queue and the reserved slot leave. */
    method FreeSpace() returns (free: nat)
      requires Valid() && buffer != null
      ensures free + |View().Contents()| == buffersize - 1
      ensures free == View().Free()
    {
      Accounting(View());
      if wp == rp {
        return buffersize - 1;
      }
      SpaceFreeCases(buffersize, rp, wp);
      free := (rp + buffersize - wp) % buffersize - 1;
    }

    /** The part of read after the wait loop: a prefix of the queue leaves the ring, or, on a
        fault, nothing changes. */
    method Take(count: nat, copied: bool) returns (r: Option<seq<Byte>>)
      requires Valid() && buffer != null && rp != wp
      modifies this`rp
      ensures Valid() && buffer[..] == old(buffer[..])
      ensures copied <==> r.Some?
      ensures r.Some? ==> r.value + View().Contents() == old(View().Contents())
      ensures r.Some? ==> View() == old(View()).AfterRead(count) && r.value == old(View()).ReadBytes(count)
      ensures r.Some? && count > 0 ==> 0 < |r.value| <= count
      ensures r.None? ==> View() == old(View())
    {
      ghost var v := View();
      var n := count;
      if rp < wp {
        n := if n > wp - rp then wp - rp else n;
      } else {
        n := if n > buffer.Length - rp then buffer.Length - rp else n;
      }
      assert n == v.ReadCount(count);
      if !copied {
        return None;
      }
      r := Some(buffer[rp .. rp + n]);
      assert r.value == v.ReadBytes(count);
      if rp + n == buffer.Length {
        rp := 0;
      } else {
        rp := rp + n;
      }
      assert View() == v.AfterRead(count);
      ReadTakesPrefix(v, count);
    }

    /** copy_from_user onto the write pointer. */
    method Fill(bytes: seq<Byte>)
      requires buffer != null && wp + |bytes| <= buffer.Length
      modifies buffer
      ensures View() == old(View()).Stored(bytes)
    {
      forall i | 0 <= i < |bytes| {
        buffer[wp + i] := bytes[i];
      }
      assert buffer[..] == old(View()).Stored(bytes).buf;
    }

    /** The three-way clamp of write's count. */
    method Room(count: nat) returns (n: nat)
      requires Valid() && buffer != null
      ensures n == View().WriteCount(count) <= count
      ensures wp + n <= buffer.Length
      ensures View().Free() > 0 && count > 0 ==> n > 0
    {
      WriteFits(View(), count);
      var free := FreeSpace();
      n := count;
      if rp > wp {
        n := if n > rp - wp then rp - wp else n;
      } else {
        n := if n > buffer.Length - wp then buffer.Length - wp else n;
      }
      n := if n > free then free else n;
    }

    /** The part of write after the wait loop. `garbage` is what a faulting copy left behind;
        it reaches free slots only, so the queue survives. */
    method Store(data: seq<Byte>, garbage: Option<seq<Byte>>) returns (r: Option<nat>)
      requires Valid() && buffer != null
      requires View().Free() > 0
      requires garbage.Some? ==> |garbage.value| <= View().WriteCount(|data|)
      modifies this`wp, buffer
      ensures Valid()
      ensures r.Some? <==> garbage.None?
      ensures r.Some? ==> r.value <= |data| && (data != [] ==> r.value > 0)
      ensures r.Some? ==> View().Contents() == old(View().Contents()) + data[..r.value]
      ensures r.Some? ==> View() == AfterWrite(old(View()), data) && r.value == old(View()).WriteCount(|data|)
      ensures r.None? ==> View().Contents() == old(View().Contents()) && View() == old(View()).Stored(garbage.value)
    {
      ghost var v := View();
      var n := Room(|data|);
      if garbage.Some? {
        ScribbleKeepsQueue(v, |data|, garbage.value);
        Fill(garbage.value);
        return None;
      }
      Fill(data[..n]);
      wp := wp + n;
      assert View() == v.Advanced(data[..n]);
      if wp == buffer.Length {
        wp := 0;
      }
      r := Some(n);
      assert View() == AfterWrite(v, data);
      OneWrite(v, data);
    }

    /** The body of open: the first opener allocates an empty ring. */
    method Open(read: bool, write: bool, memory: Memory) returns (e: Option<Errno>)
      requires Valid()
      modifies this
      ensures Valid()
      ensures e.Some? <==> old(buffer) == null && !memory.CanAlloc()
      ensures e.Some? ==> e == Some(ENOMEM) && buffer == null && nreaders == old(nreaders) && nwriters == old(nwriters)
      ensures e.None? ==> buffer != null && nreaders == old(nreaders) + (if read then 1 else 0)
      ensures e.None? ==> nwriters == old(nwriters) + (if write then 1 else 0)
      ensures e.None? && old(buffer) == null ==> View() == Ring(buffer[..], 0, 0) && View().Contents() == [] && fresh(buffer)
      ensures old(buffer) != null ==> buffer == old(buffer) && View() == old(View())
    {
      if buffer == null {
        if !memory.CanAlloc() {
          return Some(ENOMEM);
        }
        buffer := new Byte[buffersize];
        rp, wp := 0, 0;
      }
      if read { nreaders := nreaders + 1; }
      if write { nwriters := nwriters + 1; }
      e := None;
    }

    /** The body of release: the buffer goes with the last counted handle, not before. */
    method Release(read: bool, write: bool)
      requires Valid()
      modifies this
      ensures Valid()
      ensures nreaders == old(nreaders) - (if read then 1 else 0)
      ensures nwriters == old(nwriters) - (if write then 1 else 0)
      ensures buffer == if nreaders + nwriters == 0 then null else old(buffer)
      ensures buffer != null ==> View() == old(View())
    {
      if read { nreaders := nreaders - 1; }
      if write { nwriters := nwriters - 1; }
      if nreaders + nwriters == 0 {
        buffer := null;
      }
    }
  }
}
