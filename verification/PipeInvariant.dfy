/** What every step of the pipe protocol keeps. */
module PipeInvariant {
  import opened Kernel
  import opened Ring
  import opened PipeProtocol

  // ----- the semaphore

  predicate Holding(pc: Pc) {
    match pc
    case Idle(_) => false
    case Open(_, o) => !o.OpenDown?
    case Read(_, r) => r.Inside()
    case Write(_, w) => w.Inside()
    case Release(_, c) => !c.ReleaseDown?
  }

  function Holders(s: State): set<Tid> {
    set t | t in s.threads && Holding(s.threads[t])
  }

  /** The semaphore's value plus the threads inside. */
  function Tokens(s: State): nat { s.sem + |Holders(s)| }

  predicate Lock(s: State) { Tokens(s) == 1 }

  /** All that the rest needs of it: nobody is inside together with another. */
  predicate Exclusive(s: State) { |Holders(s)| <= 1 }

  // ----- the ring

  predicate Wrapping(pc: Pc) { pc.Write? && pc.w.WriteWrap? }

  /** `wp` rests on `end` only inside a write that is about to wrap it. */
  predicate Whole(s: State) {
    s.ring.Loose()
    && (s.ring.wp == |s.ring.buf| ==> exists t :: t in s.threads && Wrapping(s.threads[t]))
  }

  predicate Fifo(s: State) {
    s.ring.Loose() && (s.alloc ==> s.written == s.consumed + s.ring.Contents())
  }

  /** What a thread inside the critical section has found out and relies on. */
  predicate Knows(s: State, pc: Pc) {
    match pc
    case Open(_, OpenCount) => s.alloc
    case Read(_, ReadCopy(n)) => s.ring.Ok() && !s.ring.Empty() && s.ring.ReadCount(n) == n
    case Read(_, ReadMove(bytes)) =>
      && s.ring.Ok() && !s.ring.Empty() && s.ring.ReadCount(|bytes|) == |bytes|
      && s.ring.Peek(|bytes|) == bytes
    case Write(_, WriteCopy(bytes)) => s.ring.Ok() && s.ring.WriteCount(|bytes|) == |bytes|
    case Write(_, WriteMove(bytes)) =>
      && s.ring.Ok() && s.ring.WriteCount(|bytes|) == |bytes|
      && s.ring.Stored(bytes) == s.ring
    case _ => true
  }

  /** The points at which it relies on something. */
  predicate Relies(pc: Pc) {
    || (pc.Open? && pc.o.OpenCount?)
    || (pc.Read? && (pc.r.ReadCopy? || pc.r.ReadMove?))
    || (pc.Write? && (pc.w.WriteCopy? || pc.w.WriteMove?))
  }

  predicate Known(s: State) {
    !s.wild && forall t :: t in s.threads ==> Knows(s, s.threads[t])
  }

  // ----- handles and the buffer's lifetime

  predicate InUse(pc: Pc) { pc.Read? || pc.Write? }

  function Releasing(pc: Pc): Option<Hid> {
    if pc.Release? && (pc.c.ReleaseDown? || pc.c.ReleaseHeld?) then Some(pc.h) else None
  }

  predicate UseOk(s: State, pc: Pc) {
    && (InUse(pc) ==>
        && pc.h in s.handles && s.handles[pc.h].status.Live?
        && (if pc.Read? then s.handles[pc.h].Reads() else s.handles[pc.h].Writes()))
    && (Releasing(pc).Some? ==>
        Releasing(pc).value in s.handles && s.handles[Releasing(pc).value].status.Closing?)
  }

  predicate Uses(s: State) {
    && (forall t :: t in s.threads ==> UseOk(s, s.threads[t]))
    && (forall t, u :: t in s.threads && u in s.threads && t != u && Releasing(s.threads[t]).Some?
          ==> Releasing(s.threads[t]) != Releasing(s.threads[u]))
  }

  function Readers(handles: map<Hid, Handle>): set<Hid> { set h | h in handles && handles[h].Reads() }

  function Writers(handles: map<Hid, Handle>): set<Hid> { set h | h in handles && handles[h].Writes() }

  predicate Counts(s: State) {
    && s.nreaders == |Readers(s.handles)|
    && s.nwriters == |Writers(s.handles)|
    && (s.nreaders + s.nwriters > 0 ==> s.alloc)
  }

  /** In the middle of an open or a release: the buffer may be there without a handle. */
  predicate Between(pc: Pc) { (pc.Open? && pc.o.OpenCount?) || (pc.Release? && pc.c.ReleaseFree?) }

  predicate SomeoneBetween(s: State) { exists t :: t in s.threads && Between(s.threads[t]) }

  predicate BeingReleased(s: State, h: Hid) {
    exists t :: t in s.threads && Releasing(s.threads[t]) == Some(h)
  }

  /** The buffer goes with the last handle at the latest, and a closing handle has its release
      running. */
  predicate Lifetime(s: State) {
    && (s.alloc ==> s.handles != map[] || SomeoneBetween(s))
    && (forall h :: h in s.handles && s.handles[h].status.Closing? ==> BeingReleased(s, h))
  }

  // ----- the wait queues

  /** A writer has moved `wp` and its wake of `inq` is still to come. */
  predicate PendingWrite(pc: Pc) { pc.Write? && (pc.w.WriteWrap? || pc.w.WriteUp? || pc.w.WriteWake?) }

  predicate WriterPending(s: State) { exists t :: t in s.threads && PendingWrite(s.threads[t]) }

  /** A reader has moved `rp` and its wake of `outq` is still to come. */
  predicate PendingRead(pc: Pc) { pc.Read? && (pc.r.ReadUp? || pc.r.ReadWake?) }

  predicate ReaderPending(s: State) { exists t :: t in s.threads && PendingRead(s.threads[t]) }

  predicate Full(r: Ring) { r.Free() == 0 }

  /** A queued reader that nobody has woken and nobody is about to wake knows the current
      `wp`, and if the `rp` it saw equals it, then the ring is empty now. */
  predicate ReaderSafe(s: State, pc: Pc) {
    match pc
    case Read(_, ReadCheck(_, true, woken, r1, w1)) =>
      woken || WriterPending(s) ||
      ((w1.Some? ==> w1.value == s.ring.wp) && (r1 == Some(s.ring.wp) ==> s.ring.Empty()))
    case Read(_, ReadSleep(_, woken)) => woken || WriterPending(s) || s.ring.Empty()
    case _ => true
  }

  predicate WriterSafe(s: State, pc: Pc) {
    match pc
    case Write(_, WriteCheck(_, woken, r1, w1, r2, w2)) =>
      woken || ReaderPending(s) ||
      ((r2.Some? ==> r2.value == s.ring.rp) &&
       (w2.Some? && SeenFull(|s.ring.buf|, s.ring.rp, w2.value) ==> Full(s.ring)))
    case Write(_, WriteSleep(_, woken)) => woken || ReaderPending(s) || Full(s.ring)
    case _ => true
  }

  predicate Wakes(s: State) {
    && (forall t :: t in s.threads ==> ReaderSafe(s, s.threads[t]))
    && (forall t :: t in s.threads ==> WriterSafe(s, s.threads[t]))
  }

  // ----- O_NONBLOCK

  predicate ReadWaits(pc: Pc) { pc.Read? && (pc.r.ReadCheck? || pc.r.ReadSleep?) }

  predicate WriteWaits(pc: Pc) { pc.Write? && (pc.w.WriteCheck? || pc.w.WriteSleep?) }

  /** Who may be waiting: no writer with O_NONBLOCK, and no reader whose flags are exactly O_NONBLOCK. */
  predicate MayWait(s: State, pc: Pc) {
    && (ReadWaits(pc) ==> pc.h in s.handles && s.handles[pc.h].flags != {NonBlock})
    && (WriteWaits(pc) ==> pc.h in s.handles && NonBlock !in s.handles[pc.h].flags)
  }

  predicate Waits(s: State) { forall t :: t in s.threads ==> MayWait(s, s.threads[t]) }

  /** Everything but the semaphore's accounting. */
  predicate Sound(s: State) {
    Whole(s) && Fifo(s) && Known(s) && Uses(s) && Counts(s) && Lifetime(s) && Wakes(s) && Waits(s)
  }

  predicate Inv(s: State) { Lock(s) && Sound(s) }

  // ----- facts about one state

  lemma OneHolder(s: State, t: Tid, u: Tid)
    requires Exclusive(s) && t in Holders(s) && u in Holders(s)
    ensures t == u
  {
    var rest := Holders(s) - {t};
    assert |rest| == |Holders(s)| - 1;
    assert rest == {};
  }

  lemma HeldMeansZero(s: State, t: Tid)
    requires Lock(s) && t in Holders(s)
    ensures Exclusive(s) && s.sem == 0
  {
    assert {t} <= Holders(s);
    assert |Holders(s) - {t}| == |Holders(s)| - 1;
  }

  lemma HeldMeansOk(s: State, t: Tid)
    requires Exclusive(s) && Whole(s) && t in s.threads && Holding(s.threads[t]) && !Wrapping(s.threads[t])
    ensures s.ring.Ok()
  {
    if s.ring.wp == |s.ring.buf| {
      var u :| u in s.threads && Wrapping(s.threads[u]);
      assert t in Holders(s) && u in Holders(s);
      OneHolder(s, t, u);
    }
  }

  lemma UseMeansAlloc(s: State, t: Tid)
    requires Uses(s) && Counts(s) && t in s.threads && InUse(s.threads[t])
    ensures s.alloc
  {
    var h := s.threads[t].h;
    assert UseOk(s, s.threads[t]);
    assert h in Readers(s.handles) || h in Writers(s.handles);
    assert Readers(s.handles) != {} || Writers(s.handles) != {};
  }

  lemma StepNeedsThread(s: State, t: Tid, a: Action)
    requires Step(s, t, a).Some?
    ensures t in s.threads
  {
  }

  // ----- a step inside read or write

  /** Who is where after a step of `t` inside read or write: its wake, if this is it, included. */
  function ThreadsAfter(s: State, t: Tid, pc': Pc): map<Tid, Pc>
    requires t in s.threads
  {
    var pc := s.threads[t];
    if pc.Read? && pc.r.ReadWake? then WakeWriters(At(s, t, pc')).threads
    else if pc.Write? && pc.w.WriteWake? then WakeReaders(At(s, t, pc')).threads
    else At(s, t, pc').threads
  }

  predicate Untouched(s: State, s': State) {
    && s'.ring == s.ring && s'.alloc == s.alloc && s'.wild == s.wild
    && s'.written == s.written && s'.consumed == s.consumed
  }

  predicate SameCounts(s: State, s': State) {
    && s'.handles == s.handles && s'.alloc == s.alloc
    && s'.nreaders == s.nreaders && s'.nwriters == s.nwriters
  }

  /** What such a step does to everything but the ring: the thread stays on its handle or has
      returned, and outside the critical section it does nothing to the ring either. */
  predicate Used(s: State, t: Tid, s': State) {
    && t in s.threads && t in s'.threads && InUse(s.threads[t])
    && SameCounts(s, s')
    && s'.sem == s.sem + (if Holding(s.threads[t]) then 1 else 0) - (if Holding(s'.threads[t]) then 1 else 0)
    && s'.threads == ThreadsAfter(s, t, s'.threads[t])
    && StaysOn(s.threads[t], s'.threads[t])
    && (if Holding(s.threads[t]) then !ReadWaits(s'.threads[t]) && !WriteWaits(s'.threads[t])
        else Untouched(s, s') && !Relies(s'.threads[t]))
  }

  predicate StaysOn(pc: Pc, pc': Pc) {
    || pc'.Idle?
    || (pc.Read? && pc'.Read? && pc'.h == pc.h)
    || (pc.Write? && pc'.Write? && pc'.h == pc.h)
  }

  lemma HeldReadUsed(s: State, t: Tid, a: Action, h: Hid, r: ReadPoint)
    requires t in s.threads && s.threads[t] == Read(h, r) && r.Inside() && HeldRead(s, t, a, h, r).Some?
    ensures Used(s, t, HeldRead(s, t, a, h, r).value)
  {
  }

  lemma WaitReadUsed(s: State, t: Tid, a: Action, h: Hid, r: ReadPoint)
    requires t in s.threads && s.threads[t] == Read(h, r) && !r.Inside() && WaitRead(s, t, a, h, r).Some?
    ensures Used(s, t, WaitRead(s, t, a, h, r).value)
  {
    hide CheckRead;
  }

  lemma HeldWriteUsed(s: State, t: Tid, a: Action, h: Hid, w: WritePoint)
    requires t in s.threads && s.threads[t] == Write(h, w) && w.Inside() && HeldWrite(s, t, a, h, w).Some?
    ensures Used(s, t, HeldWrite(s, t, a, h, w).value)
  {
  }

  lemma WaitWriteUsed(s: State, t: Tid, a: Action, h: Hid, w: WritePoint)
    requires t in s.threads && s.threads[t] == Write(h, w) && !w.Inside() && WaitWrite(s, t, a, h, w).Some?
    ensures Used(s, t, WaitWrite(s, t, a, h, w).value)
  {
    hide CheckWrite, FindsFull;
  }

  lemma StepUsed(s: State, t: Tid, a: Action)
    requires Step(s, t, a).Some? && InUse(s.threads[t])
    ensures Used(s, t, Step(s, t, a).value)
  {
    hide StepIdle, StepOpen, StepRelease, HeldRead, HeldWrite, WaitRead, WaitWrite, Used;
    match s.threads[t] {
      case Read(h, r) => if r.Inside() { HeldReadUsed(s, t, a, h, r); } else { WaitReadUsed(s, t, a, h, r); }
      case Write(h, w) => if w.Inside() { HeldWriteUsed(s, t, a, h, w); } else { WaitWriteUsed(s, t, a, h, w); }
    }
  }

  // ----- every other step

  /** A step of open, release, or into a call: no wait queue is involved, and the ring is
      untouched or brand new. */
  predicate Quiet(s: State, t: Tid, s': State) {
    && t in s.threads && t in s'.threads && s'.threads == s.threads[t := s'.threads[t]]
    && s'.sem == s.sem + (if Holding(s.threads[t]) then 1 else 0) - (if Holding(s'.threads[t]) then 1 else 0)
    && (InUse(s'.threads[t]) ==> Enters(s'.threads[t]))
    && s'.wild == s.wild
    && (|| (s'.ring == s.ring && s'.written == s.written && s'.consumed == s.consumed && (s'.alloc ==> s.alloc))
        || (&& !s.alloc && s'.alloc && s'.written == [] && s'.consumed == []
            && s'.ring.rp == 0 && s'.ring.wp == 0 && |s'.ring.buf| == |s.ring.buf|))
    && (!Holding(s.threads[t]) ==> Untouched(s, s'))
    && (Relies(s'.threads[t]) ==> s'.threads[t].Open? && s'.alloc)
  }

  predicate Enters(pc: Pc) { (pc.Read? && pc.r.ReadDown?) || (pc.Write? && pc.w.WriteDown?) }

  lemma IdleIsQuiet(s: State, t: Tid, a: Action)
    requires t in s.threads && s.threads[t].Idle? && StepIdle(s, t, a).Some?
    ensures Quiet(s, t, StepIdle(s, t, a).value)
  {
  }

  lemma OpenIsQuiet(s: State, t: Tid, a: Action, flags: set<Flag>, o: OpenPoint)
    requires t in s.threads && s.threads[t] == Open(flags, o) && StepOpen(s, t, a, flags, o).Some?
    ensures Quiet(s, t, StepOpen(s, t, a, flags, o).value)
  {
  }

  lemma ReleaseIsQuiet(s: State, t: Tid, a: Action, h: Hid, c: ReleasePoint)
    requires t in s.threads && s.threads[t] == Release(h, c) && StepRelease(s, t, a, h, c).Some?
    ensures Quiet(s, t, StepRelease(s, t, a, h, c).value)
  {
  }

  lemma OtherIsQuiet(s: State, t: Tid, a: Action)
    requires Step(s, t, a).Some? && !InUse(s.threads[t])
    ensures Quiet(s, t, Step(s, t, a).value)
  {
    hide StepIdle, StepOpen, StepRelease, HeldRead, HeldWrite, WaitRead, WaitWrite, Quiet;
    match s.threads[t] {
      case Idle(_) => IdleIsQuiet(s, t, a);
      case Open(flags, o) => OpenIsQuiet(s, t, a, flags, o);
      case Release(h, c) => ReleaseIsQuiet(s, t, a, h, c);
    }
  }

  /** Whoever is outside the critical section leaves buffer and pointers alone. */
  lemma StepOutside(s: State, t: Tid, a: Action)
    requires Step(s, t, a).Some? && !Holding(s.threads[t])
    ensures Untouched(s, Step(s, t, a).value)
  {
    hide Step, Untouched;
    StepNeedsThread(s, t, a);
    if InUse(s.threads[t]) {
      StepUsed(s, t, a);
    } else {
      OtherIsQuiet(s, t, a);
    }
  }

  // ----- the semaphore is kept

  lemma TokensAfter(s: State, t: Tid, pc: Pc, s': State)
    requires t in s.threads && s'.threads == s.threads[t := pc]
    requires s'.sem == s.sem + (if Holding(s.threads[t]) then 1 else 0) - (if Holding(pc) then 1 else 0)
    ensures Tokens(s') == Tokens(s)
  {
    hide Holding;
    var was, now := Holding(s.threads[t]), Holding(pc);
    forall u
      ensures u in Holders(s') <==> if u == t then now else u in Holders(s)
    {
    }
    assert t in Holders(s) <==> was;
    OneChanged(Holders(s), Holders(s'), t);
  }

  lemma OneChanged<T>(a: set<T>, b: set<T>, t: T)
    requires forall u :: u in b && u != t <==> u in a && u != t
    ensures |b| == |a| - (if t in a then 1 else 0) + (if t in b then 1 else 0)
  {
    assert a - {t} == b - {t};
    assert |a - {t}| == |a| - (if t in a then 1 else 0);
  }

  lemma WakeKeepsHolders(s: State)
    ensures Holders(WakeReaders(s)) == Holders(s) && Holders(WakeWriters(s)) == Holders(s)
  {
    assert forall pc :: Holding(WakeReader(pc)) == Holding(pc) && Holding(WakeWriter(pc)) == Holding(pc);
  }

  lemma UsedKeepsTokens(s: State, t: Tid, s': State)
    requires Used(s, t, s')
    ensures Tokens(s') == Tokens(s)
  {
    hide Holding, StaysOn, Untouched, SameCounts;
    var m := At(s, t, s'.threads[t]).(sem := s'.sem);
    TokensAfter(s, t, s'.threads[t], m);
    WakeKeepsHolders(m);
    assert Holders(s') == Holders(m);
  }

  /** No step of any call, early returns included, makes or loses a token. */
  lemma StepKeepsTokens(s: State, t: Tid, a: Action)
    requires Step(s, t, a).Some?
    ensures Tokens(Step(s, t, a).value) == Tokens(s)
  {
    hide Step, Used;
    StepNeedsThread(s, t, a);
    var s' := Step(s, t, a).value;
    if InUse(s.threads[t]) {
      StepUsed(s, t, a);
      UsedKeepsTokens(s, t, s');
    } else {
      OtherIsQuiet(s, t, a);
      TokensAfter(s, t, s'.threads[t], s');
    }
  }

  // ----- the ring and its histories are kept

  /** Every step moves thread `t` and at most wakes others. */
  predicate Moved(s: State, t: Tid, s': State) {
    && t in s.threads && s'.threads.Keys == s.threads.Keys
    && forall u :: u in s.threads && u != t ==>
         || s'.threads[u] == s.threads[u]
         || (s.threads[t].Write? && s.threads[t].w.WriteWake? && s'.threads[u] == WakeReader(s.threads[u]))
         || (s.threads[t].Read? && s.threads[t].r.ReadWake? && s'.threads[u] == WakeWriter(s.threads[u]))
  }

  lemma AtMoves(s: State, t: Tid, s': State)
    requires t in s.threads && t in s'.threads && s'.threads == s.threads[t := s'.threads[t]]
    ensures Moved(s, t, s')
  {
  }

  lemma UsedMoves(s: State, t: Tid, s': State)
    requires Used(s, t, s')
    ensures Moved(s, t, s')
  {
    hide Holding, StaysOn, Untouched, SameCounts;
  }

  lemma StepMoves(s: State, t: Tid, a: Action)
    requires Step(s, t, a).Some?
    ensures Moved(s, t, Step(s, t, a).value)
  {
    hide Step, Used;
    StepNeedsThread(s, t, a);
    if InUse(s.threads[t]) {
      StepUsed(s, t, a);
      UsedMoves(s, t, Step(s, t, a).value);
    } else {
      OtherIsQuiet(s, t, a);
      AtMoves(s, t, Step(s, t, a).value);
    }
  }

  lemma WakeKeepsWrapping(pc: Pc)
    ensures Wrapping(pc) ==> WakeReader(pc) == pc == WakeWriter(pc)
  {
  }

  lemma RingUntouched(s: State, t: Tid, s': State)
    requires Whole(s) && Fifo(s) && Moved(s, t, s') && !Wrapping(s.threads[t])
    requires s'.ring == s.ring && s'.written == s.written && s'.consumed == s.consumed
    requires s'.alloc ==> s.alloc
    ensures Whole(s') && Fifo(s')
  {
    if s.ring.wp == |s.ring.buf| {
      var u :| u in s.threads && Wrapping(s.threads[u]);
      WakeKeepsWrapping(s.threads[u]);
      assert Wrapping(s'.threads[u]);
    }
  }

  lemma FifoTake(r: Ring, n: nat, written: seq<Byte>, consumed: seq<Byte>)
    requires r.Ok() && !r.Empty() && r.ReadCount(n) == n && written == consumed + r.Contents()
    ensures r.Past(n).Ok()
    ensures written == consumed + r.Peek(n) + r.Past(n).Contents()
  {
    hide Ring.Contents;
    PassTakesPrefix(r, n);
    assert consumed + (r.Peek(n) + r.Past(n).Contents()) == consumed + r.Peek(n) + r.Past(n).Contents();
  }

  lemma ClampedOnce(r: Ring, count: nat)
    ensures r.WriteCount(r.WriteCount(count)) == r.WriteCount(count)
  {
    hide SpaceFree;
  }

  lemma FifoPut(r: Ring, bytes: seq<Byte>, written: seq<Byte>, consumed: seq<Byte>)
    requires r.Ok() && r.WriteCount(|bytes|) == |bytes| && r.Stored(bytes) == r
    requires written == consumed + r.Contents()
    ensures var r' := r.(wp := r.wp + |bytes|);
      r'.Loose() && written + bytes == consumed + r'.Contents()
  {
    hide Ring.Contents, Ring.WriteCount, Ring.Free, Ring.Stored;
    WriteAppends(r, bytes);
    assert r.Advanced(bytes) == r.(wp := r.wp + |bytes|);
    assert consumed + (r.Contents() + bytes) == consumed + r.Contents() + bytes;
  }

  lemma HeldReadKeepsRing(s: State, t: Tid, a: Action, h: Hid, r: ReadPoint)
    requires Whole(s) && Fifo(s) && s.alloc
    requires t in s.threads && s.threads[t] == Read(h, r) && Knows(s, Read(h, r))
    requires r.Inside() && HeldRead(s, t, a, h, r).Some?
    ensures Whole(HeldRead(s, t, a, h, r).value) && Fifo(HeldRead(s, t, a, h, r).value)
  {
    hide Ring.Contents;
    var s' := HeldRead(s, t, a, h, r).value;
    if r.ReadMove? {
      FifoTake(s.ring, |r.bytes|, s.written, s.consumed);
    } else {
      AtMoves(s, t, s');
      RingUntouched(s, t, s');
    }
  }

  lemma HeldWriteKeepsRing(s: State, t: Tid, a: Action, h: Hid, w: WritePoint)
    requires Whole(s) && Fifo(s) && s.alloc
    requires t in s.threads && s.threads[t] == Write(h, w) && Knows(s, Write(h, w))
    requires w.Inside() && HeldWrite(s, t, a, h, w).Some?
    ensures Whole(HeldWrite(s, t, a, h, w).value) && Fifo(HeldWrite(s, t, a, h, w).value)
  {
    hide Ring.Contents, Ring.WriteCount, Ring.Free;
    var s' := HeldWrite(s, t, a, h, w).value;
    match w {
      case WriteCopy(bytes) =>
        ScribbleKeepsQueue(s.ring, |bytes|, if a.Fault? then a.garbage else bytes);
      case WriteMove(bytes) =>
        FifoPut(s.ring, bytes, s.written, s.consumed);
        assert Wrapping(s'.threads[t]);
      case WriteWrap(_) =>
        WrapKeepsContents(s.ring);
      case _ =>
        AtMoves(s, t, s');
        RingUntouched(s, t, s');
    }
  }

  lemma WrapKeepsContents(r: Ring)
    requires r.Loose()
    ensures r.Wrapped().Ok() && r.Wrapped().Contents() == r.Contents()
  {
    if r.wp == |r.buf| {
      assert r.Wrapped().Contents() == r.buf[r.rp..] + r.buf[..0];
    }
  }

  /** The order is kept because a thread inside finds the ring as it left it. */
  lemma StepKeepsRing(s: State, t: Tid, a: Action)
    requires Whole(s) && Fifo(s) && Known(s) && Uses(s) && Counts(s) && Step(s, t, a).Some?
    ensures Whole(Step(s, t, a).value) && Fifo(Step(s, t, a).value)
  {
    hide StepIdle, StepOpen, StepRelease, HeldRead, HeldWrite, WaitRead, WaitWrite, Knows, Moved, Uses, Counts;
    var s' := Step(s, t, a).value;
    var pc := s.threads[t];
    assert Knows(s, pc);
    StepMoves(s, t, a);
    if InUse(pc) && Holding(pc) {
      UseMeansAlloc(s, t);
      if pc.Read? {
        HeldReadKeepsRing(s, t, a, pc.h, pc.r);
      } else {
        HeldWriteKeepsRing(s, t, a, pc.h, pc.w);
      }
    } else if InUse(pc) {
      StepOutside(s, t, a);
      RingUntouched(s, t, s');
    } else {
      OtherIsQuiet(s, t, a);
      if !s.alloc && s'.alloc {
        assert s'.ring.Contents() == [];
      } else {
        RingUntouched(s, t, s');
      }
    }
  }

  // ----- what a thread knows stays true, because it is alone inside

  lemma StoredTwice(r: Ring, bytes: seq<Byte>)
    requires r.wp + |bytes| <= |r.buf|
    ensures var r' := r.Stored(bytes);
      |r'.buf| == |r.buf| && r'.rp == r.rp && r'.wp == r.wp && r'.Stored(bytes) == r'
  {
  }

  lemma ReaderKnows(s: State, t: Tid, a: Action, h: Hid, r: ReadPoint)
    requires t in s.threads && HeldRead(s, t, a, h, r).Some?
    requires s.alloc && !s.wild && Knows(s, Read(h, r)) && (r.ReadHeld? ==> s.ring.Ok())
    ensures var s' := HeldRead(s, t, a, h, r).value; !s'.wild && t in s'.threads && Knows(s', s'.threads[t])
  {
    hide Ring.Contents;
    if r.ReadHeld? {
      ReadCountIdempotent(s.ring, r.count);
    } else if r.ReadCopy? {
      PassTakesPrefix(s.ring, r.n);
    }
  }

  lemma WriterKnows(s: State, t: Tid, a: Action, h: Hid, w: WritePoint)
    requires t in s.threads && HeldWrite(s, t, a, h, w).Some?
    requires s.alloc && !s.wild && Knows(s, Write(h, w)) && (w.WriteHeld? ==> s.ring.Ok())
    ensures var s' := HeldWrite(s, t, a, h, w).value; !s'.wild && t in s'.threads && Knows(s', s'.threads[t])
  {
    hide SpaceFree, Ring.Stored;
    if w.WriteHeld? {
      ClampedOnce(s.ring, |w.data|);
    } else if w.WriteCopy? {
      WriteFits(s.ring, |w.bytes|);
      StoredTwice(s.ring, w.bytes);
    }
  }

  lemma KnowsNothing(s: State, t: Tid)
    requires t in s.threads && (Relies(s.threads[t]) ==> s.threads[t].Open? && s.alloc)
    ensures Knows(s, s.threads[t])
  {
  }

  lemma MoverKnows(s: State, t: Tid, a: Action)
    requires Exclusive(s) && Whole(s) && Known(s) && Uses(s) && Counts(s) && Step(s, t, a).Some?
    ensures var s' := Step(s, t, a).value; !s'.wild && t in s'.threads && Knows(s', s'.threads[t])
  {
    hide StepIdle, StepOpen, StepRelease, HeldRead, HeldWrite, WaitRead, WaitWrite, Knows, Whole, Uses, Counts;
    var pc := s.threads[t];
    assert Knows(s, pc);
    if InUse(pc) && Holding(pc) {
      UseMeansAlloc(s, t);
      if !Wrapping(pc) { HeldMeansOk(s, t); }
      if pc.Read? {
        ReaderKnows(s, t, a, pc.h, pc.r);
      } else {
        WriterKnows(s, t, a, pc.h, pc.w);
      }
    } else {
      if InUse(pc) { StepUsed(s, t, a); } else { OtherIsQuiet(s, t, a); }
      KnowsNothing(Step(s, t, a).value, t);
    }
  }

  lemma OthersKnow(s: State, t: Tid, a: Action, u: Tid)
    requires Exclusive(s) && Known(s) && Step(s, t, a).Some? && u in s.threads && u != t
    ensures u in Step(s, t, a).value.threads
    ensures Knows(Step(s, t, a).value, Step(s, t, a).value.threads[u])
  {
    hide Step;
    var s' := Step(s, t, a).value;
    StepNeedsThread(s, t, a);
    StepMoves(s, t, a);
    assert Knows(s, s.threads[u]);
    if Holding(s.threads[u]) {
      if Holding(s.threads[t]) { OneHolder(s, t, u); }
      StepOutside(s, t, a);
      assert s'.threads[u] == s.threads[u];
    }
  }

  lemma StepKeepsKnown(s: State, t: Tid, a: Action)
    requires Exclusive(s) && Whole(s) && Known(s) && Uses(s) && Counts(s) && Step(s, t, a).Some?
    ensures Known(Step(s, t, a).value)
  {
    hide Step, Whole, Uses, Counts, Knows;
    MoverKnows(s, t, a);
    StepNeedsThread(s, t, a);
    StepMoves(s, t, a);
    forall u | u in s.threads && u != t
      ensures Knows(Step(s, t, a).value, Step(s, t, a).value.threads[u])
    {
      OthersKnow(s, t, a, u);
    }
  }

  // ----- handles are used properly

  lemma WakeKeepsUse(pc: Pc)
    ensures Releasing(WakeReader(pc)) == Releasing(pc) == Releasing(WakeWriter(pc))
    ensures InUse(WakeReader(pc)) == InUse(pc) == InUse(WakeWriter(pc))
    ensures InUse(pc) ==> StaysOn(pc, WakeReader(pc)) && StaysOn(pc, WakeWriter(pc))
  {
  }

  predicate LeftAlone(s: State, t: Tid, h: Hid) {
    forall u :: u in s.threads && u != t ==> !On(s.threads[u], h) && Releasing(s.threads[u]) != Some(h)
  }

  /** Nobody but `t` was using or releasing the handles that changed. */
  lemma UsesAfter(s: State, t: Tid, s': State, changed: set<Hid>)
    requires Uses(s) && Moved(s, t, s')
    requires UseOk(s', s'.threads[t])
    requires Releasing(s'.threads[t]).Some? ==>
               || Releasing(s'.threads[t]) == Releasing(s.threads[t])
               || LeftAlone(s, t, Releasing(s'.threads[t]).value)
    requires forall k :: k in s.handles && k !in changed ==> k in s'.handles && s'.handles[k] == s.handles[k]
    requires forall k :: k in changed ==> LeftAlone(s, t, k)
    ensures Uses(s')
  {
    hide Releasing;
    forall u | u in s.threads && u != t
      ensures UseOk(s', s'.threads[u]) && Releasing(s'.threads[u]) == Releasing(s.threads[u])
    {
      assert UseOk(s, s.threads[u]);
      WakeKeepsUse(s.threads[u]);
    }
  }

  lemma ClosingIsLeftAlone(s: State, t: Tid, h: Hid)
    requires Uses(s) && t in s.threads && Releasing(s.threads[t]) == Some(h)
    ensures LeftAlone(s, t, h)
  {
    assert UseOk(s, s.threads[t]);
    forall u | u in s.threads && u != t
      ensures !On(s.threads[u], h) && Releasing(s.threads[u]) != Some(h)
    {
      assert UseOk(s, s.threads[u]);
    }
  }

  lemma AbsentIsLeftAlone(s: State, t: Tid, h: Hid)
    requires Uses(s) && (h !in s.handles || (s.handles[h].status.Live? && !Busy(s, h)))
    ensures LeftAlone(s, t, h)
  {
    forall u | u in s.threads && u != t
      ensures !On(s.threads[u], h) && Releasing(s.threads[u]) != Some(h)
    {
      assert UseOk(s, s.threads[u]);
    }
  }

  lemma StayingKeepsUses(s: State, t: Tid, s': State)
    requires Uses(s) && Used(s, t, s')
    ensures Uses(s')
  {
    hide Holding, Untouched, Moved, ThreadsAfter;
    UsedMoves(s, t, s');
    assert UseOk(s, s.threads[t]);
    UsesAfter(s, t, s', {});
  }

  lemma UsesOne(s: State, t: Tid)
    requires Uses(s) && t in s.threads
    ensures UseOk(s, s.threads[t])
  {
  }

  lemma OpenKeepsUses(s: State, t: Tid, a: Action, flags: set<Flag>, o: OpenPoint)
    requires Uses(s) && t in s.threads && s.threads[t] == Open(flags, o) && StepOpen(s, t, a, flags, o).Some?
    ensures Uses(StepOpen(s, t, a, flags, o).value)
  {
    hide Uses, LeftAlone;
    var s' := StepOpen(s, t, a, flags, o).value;
    AtMoves(s, t, s');
    if a.Counted? { AbsentIsLeftAlone(s, t, a.h); }
    UsesAfter(s, t, s', if a.Counted? then {a.h} else {});
  }

  lemma ReleaseKeepsUses(s: State, t: Tid, a: Action, h: Hid, c: ReleasePoint)
    requires Uses(s) && t in s.threads && s.threads[t] == Release(h, c) && StepRelease(s, t, a, h, c).Some?
    ensures Uses(StepRelease(s, t, a, h, c).value)
  {
    hide Uses, LeftAlone;
    var s' := StepRelease(s, t, a, h, c).value;
    AtMoves(s, t, s');
    UsesOne(s, t);
    if Releasing(s.threads[t]).Some? {
      ClosingIsLeftAlone(s, t, h);
      UsesAfter(s, t, s', {h});
    } else {
      UsesAfter(s, t, s', {});
    }
  }

  lemma IdleKeepsUses(s: State, t: Tid, a: Action)
    requires Uses(s) && t in s.threads && s.threads[t].Idle? && StepIdle(s, t, a).Some?
    ensures Uses(StepIdle(s, t, a).value)
  {
    hide Uses, LeftAlone;
    var s' := StepIdle(s, t, a).value;
    AtMoves(s, t, s');
    if a.BeginRelease? { AbsentIsLeftAlone(s, t, a.h); }
    UsesAfter(s, t, s', if a.BeginRelease? then {a.h} else {});
  }

  lemma StepKeepsUses(s: State, t: Tid, a: Action)
    requires Uses(s) && Step(s, t, a).Some?
    ensures Uses(Step(s, t, a).value)
  {
    hide StepIdle, StepOpen, StepRelease, HeldRead, HeldWrite, WaitRead, WaitWrite, Used, Uses;
    match s.threads[t] {
      case Idle(_) => IdleKeepsUses(s, t, a);
      case Open(flags, o) => OpenKeepsUses(s, t, a, flags, o);
      case Release(h, c) => ReleaseKeepsUses(s, t, a, h, c);
      case _ =>
        StepUsed(s, t, a);
        StayingKeepsUses(s, t, Step(s, t, a).value);
    }
  }

  // ----- the counters, and with them the buffer's lifetime

  lemma CountsAfterAdd(handles: map<Hid, Handle>, h: Hid, x: Handle)
    requires h !in handles
    ensures |Readers(handles[h := x])| == |Readers(handles)| + (if x.Reads() then 1 else 0)
    ensures |Writers(handles[h := x])| == |Writers(handles)| + (if x.Writes() then 1 else 0)
  {
    var more := handles[h := x];
    OneChanged(Readers(handles), Readers(more), h);
    OneChanged(Writers(handles), Writers(more), h);
  }

  lemma CountsAfterRemove(handles: map<Hid, Handle>, h: Hid)
    requires h in handles
    ensures |Readers(handles - {h})| == |Readers(handles)| - (if handles[h].Reads() then 1 else 0)
    ensures |Writers(handles - {h})| == |Writers(handles)| - (if handles[h].Writes() then 1 else 0)
  {
    assert (handles - {h})[h := handles[h]] == handles;
    CountsAfterAdd(handles - {h}, h, handles[h]);
  }

  lemma StatusKeepsCounts(handles: map<Hid, Handle>, h: Hid, status: Status)
    requires h in handles
    ensures Readers(handles[h := handles[h].(status := status)]) == Readers(handles)
    ensures Writers(handles[h := handles[h].(status := status)]) == Writers(handles)
  {
  }

  /** An opener counts itself on a buffer that is still there: nobody was inside to free it. */
  lemma OpenKeepsCounts(s: State, t: Tid, a: Action, flags: set<Flag>, o: OpenPoint)
    requires Counts(s) && Knows(s, Open(flags, o)) && StepOpen(s, t, a, flags, o).Some?
    ensures Counts(StepOpen(s, t, a, flags, o).value)
  {
    if o.OpenCount? { CountsAfterAdd(s.handles, a.h, Handle(flags, Live)); }
  }

  lemma ReleaseKeepsCounts(s: State, t: Tid, a: Action, h: Hid, c: ReleasePoint)
    requires Counts(s) && StepRelease(s, t, a, h, c).Some?
    ensures Counts(StepRelease(s, t, a, h, c).value)
  {
    if c.ReleaseHeld? {
      CountsAfterRemove(s.handles, h);
    } else if c.ReleaseDown? && a.Interrupt? {
      StatusKeepsCounts(s.handles, h, Leaked);
    }
  }

  lemma IdleKeepsCounts(s: State, t: Tid, a: Action)
    requires Counts(s) && StepIdle(s, t, a).Some?
    ensures Counts(StepIdle(s, t, a).value)
  {
    if a.BeginRelease? { StatusKeepsCounts(s.handles, a.h, Closing); }
  }

  lemma StepKeepsCounts(s: State, t: Tid, a: Action)
    requires Known(s) && Counts(s) && Step(s, t, a).Some?
    ensures Counts(Step(s, t, a).value)
  {
    hide StepIdle, StepOpen, StepRelease, HeldRead, HeldWrite, WaitRead, WaitWrite, Knows;
    assert Knows(s, s.threads[t]);
    match s.threads[t] {
      case Idle(_) => IdleKeepsCounts(s, t, a);
      case Open(flags, o) => OpenKeepsCounts(s, t, a, flags, o);
      case Release(h, c) => ReleaseKeepsCounts(s, t, a, h, c);
      case _ => StepUsed(s, t, a);
    }
  }

  // ----- closing handles and the buffer's end

  /** Only thread `t` moved: closing handles other than `mine` still have their release running. */
  lemma StillReleased(s: State, t: Tid, s': State, mine: set<Hid>)
    requires Lifetime(s) && t in s.threads && t in s'.threads && s'.threads == s.threads[t := s'.threads[t]]
    requires Releasing(s.threads[t]).Some? ==> Releasing(s.threads[t]).value in mine
    requires forall h :: h in s'.handles && s'.handles[h].status.Closing? && h !in mine ==>
      h in s.handles && s.handles[h].status.Closing?
    ensures forall h :: h in s'.handles && s'.handles[h].status.Closing? && h !in mine ==> BeingReleased(s', h)
  {
    forall h | h in s'.handles && s'.handles[h].status.Closing? && h !in mine
      ensures BeingReleased(s', h)
    {
      var u :| u in s.threads && Releasing(s.threads[u]) == Some(h);
      assert s'.threads[u] == s.threads[u];
    }
  }

  lemma StillBetween(s: State, t: Tid, s': State)
    requires t in s.threads && t in s'.threads && s'.threads == s.threads[t := s'.threads[t]]
    ensures SomeoneBetween(s) && !Between(s.threads[t]) ==> SomeoneBetween(s')
    ensures Between(s'.threads[t]) ==> SomeoneBetween(s')
  {
    if SomeoneBetween(s) && !Between(s.threads[t]) {
      var u :| u in s.threads && Between(s.threads[u]);
      assert s'.threads[u] == s.threads[u];
    }
  }

  lemma OpenKeepsLifetime(s: State, t: Tid, a: Action, flags: set<Flag>, o: OpenPoint)
    requires Lifetime(s) && t in s.threads && s.threads[t] == Open(flags, o) && StepOpen(s, t, a, flags, o).Some?
    ensures Lifetime(StepOpen(s, t, a, flags, o).value)
  {
    hide SomeoneBetween, BeingReleased;
    var s' := StepOpen(s, t, a, flags, o).value;
    if o.OpenCount? { assert a.h in s'.handles; }
    StillBetween(s, t, s');
    StillReleased(s, t, s', {});
  }

  lemma IdleKeepsLifetime(s: State, t: Tid, a: Action)
    requires Lifetime(s) && t in s.threads && s.threads[t].Idle? && StepIdle(s, t, a).Some?
    ensures Lifetime(StepIdle(s, t, a).value)
  {
    hide SomeoneBetween;
    var s' := StepIdle(s, t, a).value;
    StillBetween(s, t, s');
    if a.BeginRelease? {
      assert a.h in s'.handles;
      assert Releasing(s'.threads[t]) == Some(a.h);
      StillReleased(s, t, s', {a.h});
    } else {
      StillReleased(s, t, s', {});
    }
  }

  lemma ReleaseKeepsLifetime(s: State, t: Tid, a: Action, h: Hid, c: ReleasePoint)
    requires Lifetime(s) && Counts(s) && t in s.threads && s.threads[t] == Release(h, c)
    requires StepRelease(s, t, a, h, c).Some?
    ensures Lifetime(StepRelease(s, t, a, h, c).value)
  {
    hide SomeoneBetween;
    var s' := StepRelease(s, t, a, h, c).value;
    ReleaseKeepsCounts(s, t, a, h, c);
    StillBetween(s, t, s');
    assert s'.handles == map[] ==> Readers(s'.handles) == {} && Writers(s'.handles) == {};
    if Releasing(s'.threads[t]).Some? {
      StillReleased(s, t, s', {h});
    } else if Releasing(s.threads[t]).Some? {
      assert h !in s'.handles || s'.handles[h].status.Leaked?;
      StillReleased(s, t, s', {h});
    } else {
      StillReleased(s, t, s', {});
    }
  }

  lemma UseKeepsLifetime(s: State, t: Tid, s': State)
    requires Lifetime(s) && Used(s, t, s')
    ensures Lifetime(s')
  {
    hide Holding, Untouched, ThreadsAfter;
    UsedMoves(s, t, s');
    if SomeoneBetween(s) {
      var u :| u in s.threads && Between(s.threads[u]);
      assert Between(s'.threads[u]);
    }
    forall h | h in s'.handles && s'.handles[h].status.Closing?
      ensures BeingReleased(s', h)
    {
      assert BeingReleased(s, h);
      var u :| u in s.threads && Releasing(s.threads[u]) == Some(h);
      WakeKeepsUse(s.threads[u]);
      assert Releasing(s'.threads[u]) == Some(h);
    }
  }

  lemma StepKeepsLifetime(s: State, t: Tid, a: Action)
    requires Lifetime(s) && Counts(s) && Step(s, t, a).Some?
    ensures Lifetime(Step(s, t, a).value)
  {
    hide StepIdle, StepOpen, StepRelease, HeldRead, HeldWrite, WaitRead, WaitWrite, Used, Lifetime, Counts;
    match s.threads[t] {
      case Idle(_) => IdleKeepsLifetime(s, t, a);
      case Open(flags, o) => OpenKeepsLifetime(s, t, a, flags, o);
      case Release(h, c) => ReleaseKeepsLifetime(s, t, a, h, c);
      case _ =>
        StepUsed(s, t, a);
        UseKeepsLifetime(s, t, Step(s, t, a).value);
    }
  }

  /** A handle whose release was interrupted stays as it is. */
  lemma StepKeepsLeaked(s: State, t: Tid, a: Action, h: Hid)
    requires Uses(s) && Step(s, t, a).Some? && h in s.handles && s.handles[h].status.Leaked?
    ensures h in Step(s, t, a).value.handles && Step(s, t, a).value.handles[h] == s.handles[h]
  {
    hide HeldRead, HeldWrite, WaitRead, WaitWrite;
    assert UseOk(s, s.threads[t]);
    if InUse(s.threads[t]) { StepUsed(s, t, a); }
  }

  // ----- O_NONBLOCK is honoured as far as the code tests it

  predicate SameFlags(s: State, s': State) {
    forall k :: k in s.handles && k in s'.handles ==> s'.handles[k].flags == s.handles[k].flags
  }

  lemma FlagsFixed(s: State, t: Tid, a: Action)
    requires Step(s, t, a).Some?
    ensures SameFlags(s, Step(s, t, a).value)
  {
    hide HeldRead, HeldWrite, WaitRead, WaitWrite;
    if InUse(s.threads[t]) { StepUsed(s, t, a); }
  }

  lemma OthersMayWait(s: State, t: Tid, s': State)
    requires Waits(s) && Uses(s') && Moved(s, t, s') && MayWait(s', s'.threads[t])
    requires SameFlags(s, s')
    ensures Waits(s')
  {
    forall u | u in s'.threads && u != t
      ensures MayWait(s', s'.threads[u])
    {
      assert MayWait(s, s.threads[u]);
      assert UseOk(s', s'.threads[u]);
    }
  }

  lemma ReaderMayWait(s: State, t: Tid, a: Action, h: Hid, r: ReadPoint)
    requires MayWait(s, Read(h, r)) && !r.Inside() && WaitRead(s, t, a, h, r).Some?
    ensures var s' := WaitRead(s, t, a, h, r).value; t in s'.threads && MayWait(s, s'.threads[t])
  {
    hide CheckRead;
  }

  lemma WriterMayWait(s: State, t: Tid, a: Action, h: Hid, w: WritePoint)
    requires MayWait(s, Write(h, w)) && !w.Inside() && WaitWrite(s, t, a, h, w).Some?
    ensures var s' := WaitWrite(s, t, a, h, w).value; t in s'.threads && MayWait(s, s'.threads[t])
  {
    hide CheckWrite, FindsFull;
  }

  lemma MoverMayWait(s: State, t: Tid, a: Action)
    requires Step(s, t, a).Some? && MayWait(s, s.threads[t])
    ensures t in Step(s, t, a).value.threads
    ensures MayWait(Step(s, t, a).value, Step(s, t, a).value.threads[t])
  {
    hide StepIdle, StepOpen, StepRelease, HeldRead, HeldWrite, WaitRead, WaitWrite;
    match s.threads[t] {
      case Read(h, r) =>
        StepUsed(s, t, a);
        if !r.Inside() { ReaderMayWait(s, t, a, h, r); }
      case Write(h, w) =>
        StepUsed(s, t, a);
        if !w.Inside() { WriterMayWait(s, t, a, h, w); }
      case _ => OtherIsQuiet(s, t, a);
    }
  }

  lemma StepKeepsWaits(s: State, t: Tid, a: Action)
    requires Uses(s) && Waits(s) && Step(s, t, a).Some?
    ensures Waits(Step(s, t, a).value)
  {
    hide Step;
    var s' := Step(s, t, a).value;
    assert t in s.threads by { StepNeedsThread(s, t, a); }
    StepMoves(s, t, a);
    StepKeepsUses(s, t, a);
    MoverMayWait(s, t, a);
    FlagsFixed(s, t, a);
    OthersMayWait(s, t, s');
  }

  // ----- no wakeup is lost

  lemma WriterStaysPending(s: State, t: Tid, s': State)
    requires Moved(s, t, s') && WriterPending(s)
    requires PendingWrite(s.threads[t]) ==> PendingWrite(s'.threads[t])
    ensures WriterPending(s')
  {
    var u :| u in s.threads && PendingWrite(s.threads[u]);
    assert WakeReader(s.threads[u]) == s.threads[u] == WakeWriter(s.threads[u]);
    assert PendingWrite(s'.threads[u]);
  }

  lemma ReaderStaysPending(s: State, t: Tid, s': State)
    requires Moved(s, t, s') && ReaderPending(s)
    requires PendingRead(s.threads[t]) ==> PendingRead(s'.threads[t])
    ensures ReaderPending(s')
  {
    var u :| u in s.threads && PendingRead(s.threads[u]);
    assert WakeReader(s.threads[u]) == s.threads[u] == WakeWriter(s.threads[u]);
    assert PendingRead(s'.threads[u]);
  }

  /** Ways for a step not to surprise a queued reader: its wake is now pending, it was
      just woken, or the pointers still mean the same to it. */
  predicate ReadersUndisturbed(s: State, t: Tid, s': State)
    requires Moved(s, t, s')
  {
    || PendingWrite(s'.threads[t])
    || (forall u :: u in s.threads && u != t ==> s'.threads[u] == WakeReader(s.threads[u]))
    || (&& !PendingWrite(s.threads[t])
        && s'.ring.wp == s.ring.wp
        && (s'.ring.rp == s.ring.rp || !s.ring.Empty()))
  }

  predicate WritersUndisturbed(s: State, t: Tid, s': State)
    requires Moved(s, t, s')
  {
    || PendingRead(s'.threads[t])
    || (forall u :: u in s.threads && u != t ==> s'.threads[u] == WakeWriter(s.threads[u]))
    || (&& !PendingRead(s.threads[t])
        && |s'.ring.buf| == |s.ring.buf| && s'.ring.rp == s.ring.rp
        && (Full(s.ring) ==> Full(s'.ring)))
  }

  lemma OtherReadersSafe(s: State, t: Tid, s': State)
    requires Wakes(s) && Moved(s, t, s') && ReadersUndisturbed(s, t, s')
    ensures forall u :: u in s'.threads && u != t ==> ReaderSafe(s', s'.threads[u])
  {
    if PendingWrite(s'.threads[t]) {
      assert WriterPending(s');
    } else if !PendingWrite(s.threads[t]) {
      if WriterPending(s) { WriterStaysPending(s, t, s'); }
    }
    forall u | u in s'.threads && u != t
      ensures ReaderSafe(s', s'.threads[u])
    {
      assert ReaderSafe(s, s.threads[u]);
    }
  }

  lemma OtherWritersSafe(s: State, t: Tid, s': State)
    requires Wakes(s) && Moved(s, t, s') && WritersUndisturbed(s, t, s')
    ensures forall u :: u in s'.threads && u != t ==> WriterSafe(s', s'.threads[u])
  {
    hide Full, SeenFull;
    if PendingRead(s'.threads[t]) {
      assert ReaderPending(s');
    } else if !PendingRead(s.threads[t]) {
      if ReaderPending(s) { ReaderStaysPending(s, t, s'); }
    }
    forall u | u in s'.threads && u != t
      ensures WriterSafe(s', s'.threads[u])
    {
      assert WriterSafe(s, s.threads[u]);
    }
  }

  lemma WakesAfter(s: State, t: Tid, s': State)
    requires Wakes(s) && Moved(s, t, s')
    requires ReadersUndisturbed(s, t, s') && WritersUndisturbed(s, t, s')
    requires ReaderSafe(s', s'.threads[t]) && WriterSafe(s', s'.threads[t])
    ensures Wakes(s')
  {
    OtherReadersSafe(s, t, s');
    OtherWritersSafe(s, t, s');
  }

  lemma FullByEitherForm(r: Ring)
    requires r.Loose()
    ensures SeenFull(|r.buf|, r.rp, r.wp) ==> Full(r)
    ensures |r.buf| == 1 ==> Full(r)
    ensures Full(r.Wrapped()) == Full(r)
  {
    SpaceFreeCases(|r.buf|, r.rp, r.wp);
    SpaceFreeCases(|r.buf|, r.rp, r.Wrapped().wp);
  }

  /** A thread still in the wait loop of read knows what ReaderSafe asks of it. */
  lemma ReadWaiterSafe(s: State, t: Tid, a: Action, h: Hid, r: ReadPoint)
    requires t in s.threads && s.threads[t] == Read(h, r) && (r.ReadFlags? || r.ReadCheck? || r.ReadSleep?)
    requires WaitRead(s, t, a, h, r).Some? && ReaderSafe(s, s.threads[t])
    ensures var s' := WaitRead(s, t, a, h, r).value; t in s'.threads && ReaderSafe(s', s'.threads[t])
  {
    var s' := WaitRead(s, t, a, h, r).value;
    AtMoves(s, t, s');
    if WriterPending(s) { WriterStaysPending(s, t, s'); }
  }

  lemma WriteWaiterSafe(s: State, t: Tid, a: Action, h: Hid, w: WritePoint)
    requires t in s.threads && s.threads[t] == Write(h, w) && (w.WriteFlags? || w.WriteCheck? || w.WriteSleep?)
    requires WaitWrite(s, t, a, h, w).Some? && s.ring.Loose() && WriterSafe(s, s.threads[t])
    ensures var s' := WaitWrite(s, t, a, h, w).value; t in s'.threads && WriterSafe(s', s'.threads[t])
  {
    hide SpaceFree, Ring.Free, SeenFull;
    var s' := WaitWrite(s, t, a, h, w).value;
    AtMoves(s, t, s');
    if ReaderPending(s) { ReaderStaysPending(s, t, s'); }
    FullByEitherForm(s.ring);
  }

  /** A read moves `rp` only on a non-empty ring and with its wake to come. */
  lemma HeldReadOnRing(s: State, t: Tid, a: Action, h: Hid, r: ReadPoint)
    requires r.Inside() && HeldRead(s, t, a, h, r).Some? && Knows(s, Read(h, r))
    ensures var s' := HeldRead(s, t, a, h, r).value;
      && t in s'.threads && s'.ring.buf == s.ring.buf && s'.ring.wp == s.ring.wp
      && (s'.ring.rp == s.ring.rp || (!s.ring.Empty() && PendingRead(s'.threads[t])))
      && (r.ReadUp? ==> PendingRead(s'.threads[t]))
  {
  }

  lemma HeldReadKeepsWakes(s: State, t: Tid, a: Action, h: Hid, r: ReadPoint)
    requires Wakes(s) && t in s.threads && s.threads[t] == Read(h, r) && Knows(s, Read(h, r))
    requires r.Inside() && HeldRead(s, t, a, h, r).Some?
    ensures Wakes(HeldRead(s, t, a, h, r).value)
  {
    hide HeldRead, SpaceFree, Knows, StaysOn, Untouched, SameCounts;
    var s' := HeldRead(s, t, a, h, r).value;
    HeldReadUsed(s, t, a, h, r);
    UsedMoves(s, t, s');
    HeldReadOnRing(s, t, a, h, r);
    WakesAfter(s, t, s');
  }

  /** A write moves `wp` never out of a full ring and only with its wake to come. */
  lemma HeldWriteOnRing(s: State, t: Tid, a: Action, h: Hid, w: WritePoint)
    requires w.Inside() && HeldWrite(s, t, a, h, w).Some? && Knows(s, Write(h, w))
    ensures var s' := HeldWrite(s, t, a, h, w).value;
      && t in s'.threads && |s'.ring.buf| == |s.ring.buf| && s'.ring.rp == s.ring.rp
      && (PendingWrite(s'.threads[t]) || (s'.ring.wp == s.ring.wp && !PendingWrite(Write(h, w))))
      && (Full(s.ring) ==> s'.ring.wp == s.ring.wp || s'.ring == s.ring.Wrapped())
  {
    hide SpaceFree;
  }

  lemma HeldWriteKeepsWakes(s: State, t: Tid, a: Action, h: Hid, w: WritePoint)
    requires Wakes(s) && s.ring.Loose() && t in s.threads && s.threads[t] == Write(h, w) && Knows(s, Write(h, w))
    requires w.Inside() && HeldWrite(s, t, a, h, w).Some?
    ensures Wakes(HeldWrite(s, t, a, h, w).value)
  {
    hide HeldWrite, SpaceFree, Knows, StaysOn, Untouched, SameCounts;
    var s' := HeldWrite(s, t, a, h, w).value;
    HeldWriteUsed(s, t, a, h, w);
    UsedMoves(s, t, s');
    HeldWriteOnRing(s, t, a, h, w);
    FullByEitherForm(s.ring);
    WakesAfter(s, t, s');
  }

  lemma WaitReadKeepsWakes(s: State, t: Tid, a: Action, h: Hid, r: ReadPoint)
    requires Wakes(s) && t in s.threads && s.threads[t] == Read(h, r) && !r.Inside() && WaitRead(s, t, a, h, r).Some?
    ensures Wakes(WaitRead(s, t, a, h, r).value)
  {
    hide Full, StaysOn, SameCounts, CheckRead;
    var s' := WaitRead(s, t, a, h, r).value;
    WaitReadUsed(s, t, a, h, r);
    UsedMoves(s, t, s');
    if !r.ReadDown? && !r.ReadWake? { ReadWaiterSafe(s, t, a, h, r); }
    WakesAfter(s, t, s');
  }

  lemma WaitWriteKeepsWakes(s: State, t: Tid, a: Action, h: Hid, w: WritePoint)
    requires Wakes(s) && s.ring.Loose()
    requires t in s.threads && s.threads[t] == Write(h, w) && !w.Inside() && WaitWrite(s, t, a, h, w).Some?
    ensures Wakes(WaitWrite(s, t, a, h, w).value)
  {
    hide Full, StaysOn, SameCounts, CheckWrite, FindsFull;
    var s' := WaitWrite(s, t, a, h, w).value;
    WaitWriteUsed(s, t, a, h, w);
    UsedMoves(s, t, s');
    if !w.WriteDown? && !w.WriteWake? { WriteWaiterSafe(s, t, a, h, w); }
    WakesAfter(s, t, s');
  }

  /** The pointers are reset only while nobody is inside read or write. */
  lemma ResetKeepsWakes(s: State, t: Tid, s': State)
    requires Uses(s) && Counts(s) && !s.alloc && Quiet(s, t, s')
    ensures Wakes(s')
  {
    forall u | u in s'.threads
      ensures ReaderSafe(s', s'.threads[u]) && WriterSafe(s', s'.threads[u])
    {
      if u != t && InUse(s.threads[u]) {
        UseMeansAlloc(s, u);
        assert false;
      }
    }
  }

  lemma QuietKeepsWakes(s: State, t: Tid, s': State)
    requires Wakes(s) && s.alloc && Quiet(s, t, s') && !InUse(s.threads[t])
    ensures Wakes(s')
  {
    hide Full, SeenFull, Holding;
    AtMoves(s, t, s');
    WakesAfter(s, t, s');
  }

  lemma StepKeepsWakes(s: State, t: Tid, a: Action)
    requires Wakes(s) && s.ring.Loose() && Known(s) && Uses(s) && Counts(s) && Step(s, t, a).Some?
    ensures Wakes(Step(s, t, a).value)
  {
    hide StepIdle, StepOpen, StepRelease, HeldRead, HeldWrite, WaitRead, WaitWrite, Knows, Wakes, Uses, Counts, Quiet;
    var s' := Step(s, t, a).value;
    assert Knows(s, s.threads[t]);
    match s.threads[t] {
      case Read(h, r) =>
        if r.Inside() { HeldReadKeepsWakes(s, t, a, h, r); } else { WaitReadKeepsWakes(s, t, a, h, r); }
      case Write(h, w) =>
        if w.Inside() { HeldWriteKeepsWakes(s, t, a, h, w); } else { WaitWriteKeepsWakes(s, t, a, h, w); }
      case _ =>
        OtherIsQuiet(s, t, a);
        if s.alloc { QuietKeepsWakes(s, t, s'); } else { ResetKeepsWakes(s, t, s'); }
    }
  }

  // ----- every step, every run

  /** With one thread inside at most, every step keeps all of it. */
  lemma StepKeepsSound(s: State, t: Tid, a: Action)
    requires Exclusive(s) && Sound(s) && Step(s, t, a).Some?
    ensures Sound(Step(s, t, a).value)
  {
    hide Step, Whole, Fifo, Known, Uses, Counts, Lifetime, Wakes, Waits;
    assert s.ring.Loose() by { assert Whole(s); LooseOf(s); }
    StepKeepsRing(s, t, a);
    StepKeepsKnown(s, t, a);
    StepKeepsUses(s, t, a);
    StepKeepsCounts(s, t, a);
    StepKeepsLifetime(s, t, a);
    StepKeepsWakes(s, t, a);
    StepKeepsWaits(s, t, a);
  }

  lemma LooseOf(s: State)
    requires Whole(s)
    ensures s.ring.Loose()
  {
  }

  lemma StepKeepsInv(s: State, t: Tid, a: Action)
    requires Inv(s) && Step(s, t, a).Some?
    ensures Inv(Step(s, t, a).value)
  {
    hide Step, Sound;
    StepKeepsTokens(s, t, a);
    StepKeepsSound(s, t, a);
  }

  lemma {:induction false} ExecKeepsInv(s: State, trace: seq<(Tid, Action)>)
    requires Inv(s) && Exec(s, trace).Some?
    ensures Inv(Exec(s, trace).value)
  {
    if trace != [] {
      var last := |trace| - 1;
      ExecKeepsInv(s, trace[..last]);
      StepKeepsInv(Exec(s, trace[..last]).value, trace[last].0, trace[last].1);
    }
  }

  lemma InitInv(size: nat, tids: set<Tid>)
    requires size > 0
    ensures Inv(Init(size, tids))
  {
    var s := Init(size, tids);
    assert Holders(s) == {};
    assert Readers(s.handles) == {} && Writers(s.handles) == {};
  }

  lemma ReachableInv(s: State)
    requires Reachable(s)
    ensures Inv(s)
  {
    var size: nat, tids: set<Tid>, trace: seq<(Tid, Action)> :|
      size > 0 && Exec(Init(size, tids), trace) == Some(s);
    InitInv(size, tids);
    ExecKeepsInv(Init(size, tids), trace);
  }
}
