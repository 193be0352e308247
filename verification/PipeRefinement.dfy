/** The critical sections of the pipe as imperative code do what the steps of the protocol say. */
module PipeRefinement {
  import opened Kernel
  import opened Ring
  import opened PipeProtocol
  import opened PipeDevice
  import opened PipeTheorems

  /** The device structure in memory is the one of the protocol's state. */
  ghost predicate Mirrors(p: ScullPipe, s: State)
    reads p, p.buffer
  {
    && p.Valid() && |s.ring.buf| == p.buffersize
    && (s.alloc <==> p.buffer != null) && (s.alloc ==> p.View() == s.ring)
    && p.nreaders == s.nreaders && p.nwriters == s.nwriters
  }

  /** One more step of thread `t`. */
  function Then(s: Option<State>, t: Tid, a: Action): Option<State> {
    if s.None? then None else Step(s.value, t, a)
  }

  lemma ReadSteps(s: State, t: Tid, h: Hid, count: nat)
    requires t in s.threads && s.threads[t] == Read(h, ReadHeld(count))
    requires s.alloc && s.ring.Ok() && !s.ring.Empty()
    ensures var m := Step(s, t, Go);
      && Then(m, t, Fault([])) == Some(UpTo(s, t, Idle(Failed(EFAULT))))
      && Then(Then(m, t, Go), t, Go) == Some(At(s, t, Read(h, ReadUp(s.ring.ReadBytes(count)))).(
           ring := s.ring.AfterRead(count), consumed := s.consumed + s.ring.ReadBytes(count)))
  {
    hide StepIdle, StepOpen, StepRelease, HeldWrite, WaitRead, WaitWrite;
    ReadCountIdempotent(s.ring, count);
    PassTakesPrefix(s.ring, s.ring.ReadCount(count));
    var m := Step(s, t, Go).value;
    var up := Read(h, ReadUp(s.ring.ReadBytes(count)));
    assert Step(m, t, Go).value.threads[t := up] == s.threads[t := up];
    assert m.threads[t := Idle(Failed(EFAULT))] == s.threads[t := Idle(Failed(EFAULT))];
  }

  /** Read from a non-empty ring, up to the `up`: clamp, copy and move, or clamp and fault. */
  method ReadSection(p: ScullPipe, ghost s: State, ghost t: Tid, count: nat, copied: bool) returns (r: Option<seq<Byte>>)
    requires Mirrors(p, s) && s.alloc && !s.ring.Empty()
    requires t in s.threads && s.threads[t].Read? && s.threads[t].r == ReadHeld(count)
    modifies p`rp
    ensures var m := Step(s, t, Go);
      var s' := if copied then Then(Then(m, t, Go), t, Go) else Then(m, t, Fault([]));
      && s'.Some? && t in s'.value.threads && Mirrors(p, s'.value)
      && s'.value.consumed == s.consumed + (if r.Some? then r.value else [])
      && s'.value.threads[t] == (if r.Some? then Read(s.threads[t].h, ReadUp(r.value)) else Idle(Failed(EFAULT)))
  {
    hide Step;
    ReadSteps(s, t, s.threads[t].h, count);
    r := p.Take(count, copied);
  }

  /** Clamp, copy, move, wrap. */
  lemma WriteSteps(s: State, t: Tid, h: Hid, data: seq<Byte>)
    requires t in s.threads && s.threads[t] == Write(h, WriteHeld(data))
    requires s.alloc && s.ring.Ok() && s.ring.Free() > 0
    ensures var n := s.ring.WriteCount(|data|);
      Then(Then(Then(Step(s, t, Go), t, Go), t, Go), t, Go) == Some(At(s, t, Write(h, WriteUp(n))).(
        ring := AfterWrite(s.ring, data), written := s.written + data[..n]))
  {
    hide Step, Ring.WriteCount, Ring.Free, Ring.Stored;
    WriteFits(s.ring, |data|);
    var n := s.ring.WriteCount(|data|);
    ClampStep(s, t, h, data);
    var m1 := Step(s, t, Go).value;
    WriteCopyStep(m1, t, h, data[..n]);
    var m2 := Step(m1, t, Go).value;
    WriteMoveStep(m2, t, h, data[..n]);
    var m3 := Step(m2, t, Go).value;
    WriteWrapStep(m3, t, h, n);
    assert m3.threads[t := Write(h, WriteUp(n))] == s.threads[t := Write(h, WriteUp(n))];
    assert m3.ring == s.ring.Advanced(data[..n]) by { StoredPointers(s.ring, data[..n]); }
  }

  lemma StoredPointers(r: Ring, bytes: seq<Byte>)
    ensures r.Stored(bytes).rp == r.rp && r.Stored(bytes).wp == r.wp
  {
  }

  lemma ClampStep(s: State, t: Tid, h: Hid, data: seq<Byte>)
    requires t in s.threads && s.threads[t] == Write(h, WriteHeld(data)) && s.ring.Free() > 0
    ensures Step(s, t, Go) == Some(At(s, t, Write(h, WriteCopy(data[..s.ring.WriteCount(|data|)]))))
  {
    hide StepIdle, StepOpen, StepRelease, HeldRead, WaitRead, WaitWrite, SpaceFree;
  }

  lemma FaultSteps(s: State, t: Tid, h: Hid, data: seq<Byte>, garbage: seq<Byte>)
    requires t in s.threads && s.threads[t] == Write(h, WriteHeld(data))
    requires s.alloc && s.ring.Ok() && s.ring.Free() > 0 && |garbage| <= s.ring.WriteCount(|data|)
    ensures Then(Step(s, t, Go), t, Fault(garbage))
      == Some(UpTo(s, t, Idle(Failed(EFAULT))).(ring := s.ring.Stored(garbage)))
  {
    hide StepIdle, StepOpen, StepRelease, HeldRead, WaitRead, WaitWrite, SpaceFree, Ring.Free;
    WriteFits(s.ring, |data|);
    var m := Step(s, t, Go).value;
    assert m.threads[t := Idle(Failed(EFAULT))] == s.threads[t := Idle(Failed(EFAULT))];
  }

  /** Write to a ring with space, up to the `up`: four steps, or clamp and fault. */
  method WriteSection(p: ScullPipe, ghost s: State, ghost t: Tid, data: seq<Byte>, garbage: Option<seq<Byte>>)
    returns (r: Option<nat>)
    requires Mirrors(p, s) && s.alloc && s.ring.Free() > 0
    requires t in s.threads && s.threads[t].Write? && s.threads[t].w == WriteHeld(data)
    requires garbage.Some? ==> |garbage.value| <= s.ring.WriteCount(|data|)
    modifies p`wp, p.buffer
    ensures r.Some? <==> garbage.None?
    ensures garbage.Some? ==>
      var s' := Then(Step(s, t, Go), t, Fault(garbage.value));
      && s'.Some? && Mirrors(p, s'.value) && s'.value.written == s.written
    ensures garbage.None? ==>
      var s' := Then(Then(Then(Step(s, t, Go), t, Go), t, Go), t, Go);
      && s'.Some? && Mirrors(p, s'.value)
      && r.value <= |data| && s'.value.written == s.written + data[..r.value]
      && t in s'.value.threads && s'.value.threads[t] == Write(s.threads[t].h, WriteUp(r.value))
  {
    hide Step, SpaceFree;
    WriteSteps(s, t, s.threads[t].h, data);
    if garbage.Some? { FaultSteps(s, t, s.threads[t].h, data, garbage.value); }
    r := p.Store(data, garbage);
  }

  /** The body of open: the buffer, then the counters; `room` is what the allocator handed out. */
  method OpenSection(p: ScullPipe, ghost s: State, ghost t: Tid, flags: set<Flag>, ghost h: Hid, memory: Memory)
    returns (e: Option<Errno>)
    requires Mirrors(p, s) && h !in s.handles
    requires t in s.threads && s.threads[t] == Open(flags, OpenHeld)
    modifies p
    ensures var room := if e.None? && p.buffer != null then Some(p.buffer[..]) else None;
      var m := Step(s, t, Kmalloc(room));
      var s' := if e.Some? then m else Then(m, t, Counted(h));
      && s'.Some? && t in s'.value.threads && Mirrors(p, s'.value)
      && s'.value.threads[t] == (if e.Some? then Idle(Failed(e.value)) else Open(flags, OpenUp))
  {
    hide StepIdle, StepRelease, HeldRead, HeldWrite, WaitRead, WaitWrite;
    var x := Handle(flags, Live);
    e := p.Open(x.Reads(), x.Writes(), memory);
  }

  /** The body of release: the counters, then the buffer. */
  method ReleaseSection(p: ScullPipe, ghost s: State, ghost t: Tid, flags: set<Flag>)
    requires Mirrors(p, s) && t in s.threads && s.threads[t].Release? && s.threads[t].c.ReleaseHeld?
    requires s.threads[t].h in s.handles && s.handles[s.threads[t].h].flags == flags
    modifies p
    ensures var s' := Then(Step(s, t, Go), t, Go); s'.Some? && Mirrors(p, s'.value)
  {
    hide StepIdle, StepOpen, HeldRead, HeldWrite, WaitRead, WaitWrite;
    var x := Handle(flags, Closing);
    p.Release(x.Reads(), x.Writes());
  }
}
