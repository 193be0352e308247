/** What holds of the pipe device in every state that any interleaving can reach. */
module PipeTheorems {
  import opened Kernel
  import opened Ring
  import opened PipeProtocol
  import opened PipeInvariant

  /** Mutual exclusion: the semaphore plus the threads inside is always one. */
  lemma MutualExclusion(size: nat, tids: set<Tid>, trace: seq<(Tid, Action)>, s: State)
    requires size > 0 && Exec(Init(size, tids), trace) == Some(s)
    ensures s.sem + |Holders(s)| == 1
    ensures forall t, u :: t in Holders(s) && u in Holders(s) ==> t == u
  {
    assert Reachable(s);
    ReachableInv(s);
    forall t, u | t in Holders(s) && u in Holders(s)
      ensures t == u
    {
      OneHolder(s, t, u);
    }
  }

  // ----- sleeping and waking

  predicate ReaderAsleep(pc: Pc) { pc.Read? && pc.r.ReadSleep? && !pc.r.woken }

  predicate WriterAsleep(pc: Pc) { pc.Write? && pc.w.WriteSleep? && !pc.w.woken }

  /** A reader sleeps on a non-empty ring only if a wake is on its way. */
  lemma NoLostReaderWakeup(size: nat, tids: set<Tid>, trace: seq<(Tid, Action)>, s: State, t: Tid)
    requires size > 0 && Exec(Init(size, tids), trace) == Some(s)
    requires t in s.threads && ReaderAsleep(s.threads[t])
    ensures s.ring.Empty() || WriterPending(s)
  {
    assert Reachable(s);
    ReachableInv(s);
    assert ReaderSafe(s, s.threads[t]);
  }

  /** A writer sleeps on a ring with free space only if a wake is on its way. */
  lemma NoLostWriterWakeup(size: nat, tids: set<Tid>, trace: seq<(Tid, Action)>, s: State, t: Tid)
    requires size > 0 && Exec(Init(size, tids), trace) == Some(s)
    requires t in s.threads && WriterAsleep(s.threads[t])
    ensures s.ring.Free() == 0 || ReaderPending(s)
  {
    assert Reachable(s);
    ReachableInv(s);
    assert WriterSafe(s, s.threads[t]);
  }

  /** Readers and writers never wait for each other: on a ring that can hold a byte, if one of
      each sleeps unwoken then a wake is on its way. */
  lemma NoMutualWait(size: nat, tids: set<Tid>, trace: seq<(Tid, Action)>, s: State, t: Tid, u: Tid)
    requires size > 1 && Exec(Init(size, tids), trace) == Some(s)
    requires t in s.threads && ReaderAsleep(s.threads[t])
    requires u in s.threads && WriterAsleep(s.threads[u])
    ensures WriterPending(s) || ReaderPending(s)
  {
    NoLostReaderWakeup(size, tids, trace, s, t);
    NoLostWriterWakeup(size, tids, trace, s, u);
    RingAccounting(size, tids, trace, s);
  }

  /** The two wait queues: readers wait on `inq`, writers on `outq`. */
  datatype Queue = Inq | Outq

  /** Queued on `inq` or `outq`, and nobody has woken it. */
  predicate Queued(pc: Pc, q: Queue) {
    match q
    case Inq => ReaderAsleep(pc) || (pc.Read? && pc.r.ReadCheck? && pc.r.queued && !pc.r.woken)
    case Outq => WriterAsleep(pc) || (pc.Write? && pc.w.WriteCheck? && !pc.w.woken)
  }

  /** About to wake that queue, having moved the other pointer. */
  predicate Waker(pc: Pc, q: Queue) { if q.Inq? then PendingWrite(pc) else PendingRead(pc) }

  /** Steps until the wake of a thread that has moved a pointer. */
  function ToWake(pc: Pc): nat {
    match pc
    case Write(_, WriteWrap(_)) => 3
    case Write(_, WriteUp(_)) => 2
    case Write(_, WriteWake(_)) => 1
    case Read(_, ReadUp(_)) => 2
    case Read(_, ReadWake(_)) => 1
    case _ => 0
  }

  /** How many steps of a trace are thread `t`'s. */
  function StepsOf(t: Tid, trace: seq<(Tid, Action)>): nat {
    if trace == [] then 0
    else StepsOf(t, trace[..|trace| - 1]) + (if trace[|trace| - 1].0 == t then 1 else 0)
  }

  /** At some moment along the trace, `u` has been woken or has left the queue by itself. */
  predicate LeftQueue(s: State, trace: seq<(Tid, Action)>, u: Tid, q: Queue) {
    exists k :: 0 <= k <= |trace| && OffQueue(Exec(s, trace[..k]), u, q)
  }

  predicate OffQueue(m: Option<State>, u: Tid, q: Queue) {
    m.Some? && u in m.value.threads && !Queued(m.value.threads[u], q)
  }

  lemma WriterSteps(s: State, t: Tid, a: Action)
    requires Step(s, t, a).Some? && PendingWrite(s.threads[t])
    ensures var s' := Step(s, t, a).value;
      && t in s'.threads && ToWake(s'.threads[t]) == ToWake(s.threads[t]) - 1
      && (if s.threads[t].w.WriteWake? then s' == WakeReaders(At(s, t, s'.threads[t])) && s'.threads[t].Idle?
          else PendingWrite(s'.threads[t]))
  {
    hide StepIdle, StepOpen, StepRelease, HeldRead, WaitRead;
  }

  lemma ReaderSteps(s: State, t: Tid, a: Action)
    requires Step(s, t, a).Some? && PendingRead(s.threads[t])
    ensures var s' := Step(s, t, a).value;
      && t in s'.threads && ToWake(s'.threads[t]) == ToWake(s.threads[t]) - 1
      && (if s.threads[t].r.ReadWake? then s' == WakeWriters(At(s, t, s'.threads[t])) && s'.threads[t].Idle?
          else PendingRead(s'.threads[t]))
  {
    hide StepIdle, StepOpen, StepRelease, HeldWrite, WaitWrite;
  }

  /** Each step of a waker brings the wake nearer, and the wake reaches the whole queue. */
  lemma WakerSteps(s: State, t: Tid, a: Action, q: Queue)
    requires Step(s, t, a).Some? && Waker(s.threads[t], q)
    ensures var s' := Step(s, t, a).value;
      && t in s'.threads && ToWake(s'.threads[t]) == ToWake(s.threads[t]) - 1
      && (if ToWake(s'.threads[t]) == 0 then forall u :: u in s.threads ==> OffQueue(Some(s'), u, q)
          else Waker(s'.threads[t], q))
  {
    hide Step;
    StepNeedsThread(s, t, a);
    if q.Inq? { WriterSteps(s, t, a); } else { ReaderSteps(s, t, a); }
  }

  lemma WakerWaits(s: State, v: Tid, a: Action, t: Tid, q: Queue)
    requires Step(s, v, a).Some? && t in s.threads && t != v && Waker(s.threads[t], q)
    ensures var s' := Step(s, v, a).value; t in s'.threads && s'.threads[t] == s.threads[t]
  {
    hide Step;
    StepMoves(s, v, a);
  }

  lemma LeftQueueSooner(s: State, trace: seq<(Tid, Action)>, u: Tid, q: Queue)
    requires trace != [] && LeftQueue(s, trace[..|trace| - 1], u, q)
    ensures LeftQueue(s, trace, u, q)
  {
    var k :| 0 <= k <= |trace| - 1 && OffQueue(Exec(s, trace[..|trace| - 1][..k]), u, q);
    assert trace[..|trace| - 1][..k] == trace[..k];
  }

  /** Along any trace: `u` has been off its queue by now, or the wake is as much nearer as its
      thread has taken steps. */
  lemma {:induction false} WakeComes(s: State, trace: seq<(Tid, Action)>, t: Tid, u: Tid, q: Queue)
    requires t in s.threads && Waker(s.threads[t], q) && u in s.threads && Exec(s, trace).Some?
    ensures var m := Exec(s, trace).value;
      && u in m.threads
      && (|| LeftQueue(s, trace, u, q)
          || (&& t in m.threads && Waker(m.threads[t], q)
              && ToWake(m.threads[t]) + StepsOf(t, trace) == ToWake(s.threads[t])))
  {
    hide Step, Waker, Queued, ToWake;
    if trace != [] {
      var last := |trace| - 1;
      var (v, a) := trace[last];
      WakeComes(s, trace[..last], t, u, q);
      var m := Exec(s, trace[..last]).value;
      StepNeedsThread(m, v, a);
      StepMoves(m, v, a);
      if LeftQueue(s, trace[..last], u, q) {
        LeftQueueSooner(s, trace, u, q);
      } else if v == t {
        WakerSteps(m, v, a, q);
        assert trace[..|trace|] == trace;
      } else {
        WakerWaits(m, v, a, t, q);
      }
    }
  }

  lemma WakerBounds(s: State, t: Tid, q: Queue)
    requires t in s.threads && Waker(s.threads[t], q)
    ensures 1 <= ToWake(s.threads[t]) <= (if q.Inq? then 3 else 2)
    ensures Step(s, t, Go).Some?
  {
    hide StepIdle, StepOpen, StepRelease;
  }

  /** The wake a sleeping reader waits for comes: its thread, never blocked, needs three steps at
      most, and in every continuation that has them every reader queued before has been woken, or
      has left, at some moment. */
  lemma PendingWriterWakes(s: State, more: seq<(Tid, Action)>, t: Tid, u: Tid)
    requires t in s.threads && PendingWrite(s.threads[t]) && u in s.threads && Exec(s, more).Some?
    ensures 1 <= ToWake(s.threads[t]) <= 3 && Step(s, t, Go).Some?
    ensures ToWake(s.threads[t]) <= StepsOf(t, more) ==> LeftQueue(s, more, u, Inq)
  {
    WakeComes(s, more, t, u, Inq);
    WakerBounds(s, t, Inq);
    var m := Exec(s, more).value;
    if t in m.threads && Waker(m.threads[t], Inq) { WakerBounds(m, t, Inq); }
  }

  /** And so does the wake a sleeping writer waits for. */
  lemma PendingReaderWakes(s: State, more: seq<(Tid, Action)>, t: Tid, u: Tid)
    requires t in s.threads && PendingRead(s.threads[t]) && u in s.threads && Exec(s, more).Some?
    ensures 1 <= ToWake(s.threads[t]) <= 2 && Step(s, t, Go).Some?
    ensures ToWake(s.threads[t]) <= StepsOf(t, more) ==> LeftQueue(s, more, u, Outq)
  {
    WakeComes(s, more, t, u, Outq);
    WakerBounds(s, t, Outq);
    var m := Exec(s, more).value;
    if t in m.threads && Waker(m.threads[t], Outq) { WakerBounds(m, t, Outq); }
  }

  /** Both together: whoever sleeps although it could go on has one thread it can count on. */
  lemma SleeperIsWoken(size: nat, tids: set<Tid>, trace: seq<(Tid, Action)>, s: State, u: Tid) returns (t: Tid)
    requires size > 0 && Exec(Init(size, tids), trace) == Some(s) && u in s.threads
    requires (ReaderAsleep(s.threads[u]) && !s.ring.Empty()) || (WriterAsleep(s.threads[u]) && s.ring.Free() != 0)
    ensures var q := if s.threads[u].Read? then Inq else Outq;
      && t in s.threads && Waker(s.threads[t], q)
      && forall more :: Exec(s, more).Some? && ToWake(s.threads[t]) <= StepsOf(t, more) ==> LeftQueue(s, more, u, q)
  {
    hide Exec;
    if s.threads[u].Read? {
      NoLostReaderWakeup(size, tids, trace, s, u);
      t :| t in s.threads && PendingWrite(s.threads[t]);
      forall more | Exec(s, more).Some? && ToWake(s.threads[t]) <= StepsOf(t, more)
        ensures LeftQueue(s, more, u, Inq)
      {
        PendingWriterWakes(s, more, t, u);
      }
    } else {
      NoLostWriterWakeup(size, tids, trace, s, u);
      t :| t in s.threads && PendingRead(s.threads[t]);
      forall more | Exec(s, more).Some? && ToWake(s.threads[t]) <= StepsOf(t, more)
        ensures LeftQueue(s, more, u, Outq)
      {
        PendingReaderWakes(s, more, t, u);
      }
    }
  }

  // ----- the ring

  /** The pointers lie inside the buffer whenever the semaphore is free, the buffer keeps its
      size, and free space and queue always add up. */
  lemma RingAccounting(size: nat, tids: set<Tid>, trace: seq<(Tid, Action)>, s: State)
    requires size > 0 && Exec(Init(size, tids), trace) == Some(s)
    ensures s.ring.Loose() && |s.ring.buf| == size
    ensures s.sem > 0 ==> s.ring.Ok()
    ensures s.ring.Free() + |s.ring.Contents()| == size - 1
  {
    assert Reachable(s);
    ReachableInv(s);
    ExecKeepsSize(Init(size, tids), trace);
    if s.ring.wp == |s.ring.buf| {
      var t :| t in s.threads && Wrapping(s.threads[t]);
      HeldMeansZero(s, t);
    }
    Accounting(s.ring);
  }

  lemma HeldKeepsSize(s: State, t: Tid, a: Action)
    requires Step(s, t, a).Some? && Holding(s.threads[t]) && InUse(s.threads[t])
    ensures |Step(s, t, a).value.ring.buf| == |s.ring.buf|
  {
    hide StepIdle, StepOpen, StepRelease, WaitRead, WaitWrite, SpaceFree;
  }

  lemma StepKeepsSize(s: State, t: Tid, a: Action)
    requires Step(s, t, a).Some?
    ensures |Step(s, t, a).value.ring.buf| == |s.ring.buf|
  {
    hide Step;
    StepNeedsThread(s, t, a);
    if !InUse(s.threads[t]) {
      OtherIsQuiet(s, t, a);
    } else if Holding(s.threads[t]) {
      HeldKeepsSize(s, t, a);
    } else {
      StepOutside(s, t, a);
    }
  }

  lemma {:induction false} ExecKeepsSize(s: State, trace: seq<(Tid, Action)>)
    requires Exec(s, trace).Some?
    ensures |Exec(s, trace).value.ring.buf| == |s.ring.buf|
  {
    if trace != [] {
      var last := |trace| - 1;
      ExecKeepsSize(s, trace[..last]);
      StepKeepsSize(Exec(s, trace[..last]).value, trace[last].0, trace[last].1);
    }
  }

  // ----- buffer lifetime

  function OfStatus(handles: map<Hid, Handle>, live: bool): map<Hid, Handle> {
    map h | h in handles && handles[h].status.Live? == live :: handles[h]
  }

  predicate AllHaveMode(s: State) { forall h :: h in s.handles ==> s.handles[h].HasMode() }

  /** The counters are the live handles plus those being released or whose release was
      interrupted; the buffer exists while any of them has a mode, and without a handle only in the
      middle of an open or a release. */
  lemma BufferLifetime(size: nat, tids: set<Tid>, trace: seq<(Tid, Action)>, s: State)
    requires size > 0 && Exec(Init(size, tids), trace) == Some(s)
    ensures s.nreaders == |Readers(OfStatus(s.handles, true))| + |Readers(OfStatus(s.handles, false))|
    ensures s.nwriters == |Writers(OfStatus(s.handles, true))| + |Writers(OfStatus(s.handles, false))|
    ensures forall h :: h in s.handles && s.handles[h].HasMode() ==> s.alloc
    ensures s.alloc ==> s.handles != map[] || SomeoneBetween(s)
    ensures AllHaveMode(s) && !SomeoneBetween(s) ==> (s.alloc <==> s.handles != map[])
  {
    assert Reachable(s);
    ReachableInv(s);
    SplitCounts(s.handles);
    forall h | h in s.handles && s.handles[h].HasMode()
      ensures s.alloc
    {
      ModeKeepsBuffer(s, h);
    }
    if s.handles != map[] {
      var h :| h in s.handles;
    }
  }

  lemma ModeKeepsBuffer(s: State, h: Hid)
    requires Counts(s) && h in s.handles && s.handles[h].HasMode()
    ensures s.alloc
  {
    var readers, writers := Readers(s.handles), Writers(s.handles);
    assert h in readers || h in writers;
    assert |readers| > 0 || |writers| > 0;
  }

  lemma SplitCounts(handles: map<Hid, Handle>)
    ensures |Readers(handles)| == |Readers(OfStatus(handles, true))| + |Readers(OfStatus(handles, false))|
    ensures |Writers(handles)| == |Writers(OfStatus(handles, true))| + |Writers(OfStatus(handles, false))|
  {
    SplitReaders(handles);
    SplitWriters(handles);
  }

  lemma SplitReaders(handles: map<Hid, Handle>)
    ensures |Readers(handles)| == |Readers(OfStatus(handles, true))| + |Readers(OfStatus(handles, false))|
  {
    var l, d := OfStatus(handles, true), OfStatus(handles, false);
    assert Readers(handles) == Readers(l) + Readers(d) && Readers(l) !! Readers(d);
  }

  lemma SplitWriters(handles: map<Hid, Handle>)
    ensures |Writers(handles)| == |Writers(OfStatus(handles, true))| + |Writers(OfStatus(handles, false))|
  {
    var l, d := OfStatus(handles, true), OfStatus(handles, false);
    assert Writers(handles) == Writers(l) + Writers(d) && Writers(l) !! Writers(d);
  }

  predicate Quiescent(s: State) {
    && (forall t :: t in s.threads ==> s.threads[t].Idle?)
    && (forall h :: h in s.handles ==> !s.handles[h].status.Live?)
  }

  /** When all calls have returned and all files are closed, the buffer is still there exactly if
      some release was interrupted. */
  lemma BufferLeaksIff(size: nat, tids: set<Tid>, trace: seq<(Tid, Action)>, s: State)
    requires size > 0 && Exec(Init(size, tids), trace) == Some(s)
    requires Quiescent(s) && AllHaveMode(s)
    ensures s.alloc <==> exists h :: h in s.handles && s.handles[h].status.Leaked?
  {
    assert Reachable(s);
    ReachableInv(s);
    forall h | h in s.handles
      ensures s.handles[h].status.Leaked? && s.alloc
    {
      if s.handles[h].status.Closing? { assert BeingReleased(s, h); }
      ModeKeepsBuffer(s, h);
    }
    if s.alloc {
      assert s.handles != map[];
      var h :| h in s.handles;
      assert s.handles[h].status.Leaked?;
    }
  }

  /** And no continuation frees it again. */
  lemma {:induction false} LeakIsForever(s: State, trace: seq<(Tid, Action)>, h: Hid)
    requires Inv(s) && h in s.handles && s.handles[h].status.Leaked? && s.handles[h].HasMode()
    requires Exec(s, trace).Some?
    ensures var s' := Exec(s, trace).value; s'.alloc && h in s'.handles && s'.handles[h] == s.handles[h]
  {
    ExecKeepsInv(s, trace);
    if trace != [] {
      var last := |trace| - 1;
      LeakIsForever(s, trace[..last], h);
      ExecKeepsInv(s, trace[..last]);
      StepKeepsLeaked(Exec(s, trace[..last]).value, trace[last].0, trace[last].1, h);
    }
    ModeKeepsBuffer(Exec(s, trace).value, h);
  }

  /** No copy ever touches memory outside the allocated buffer, and whoever is inside read or write
      finds the buffer there and the pointers in it: no stale pointer is ever followed. */
  lemma NoStalePointers(size: nat, tids: set<Tid>, trace: seq<(Tid, Action)>, s: State)
    requires size > 0 && Exec(Init(size, tids), trace) == Some(s)
    ensures !s.wild
    ensures forall t :: t in s.threads && InUse(s.threads[t]) && Holding(s.threads[t]) ==>
      s.alloc && (s.ring.Ok() || Wrapping(s.threads[t]))
  {
    assert Reachable(s);
    ReachableInv(s);
    forall t | t in s.threads && InUse(s.threads[t]) && Holding(s.threads[t])
      ensures s.alloc && (s.ring.Ok() || Wrapping(s.threads[t]))
    {
      UseMeansAlloc(s, t);
      if !Wrapping(s.threads[t]) { HeldMeansOk(s, t); }
    }
  }

  // ----- the semaphore is never stuck

  /** Something the thread inside can do next: it is never blocked. */
  function HolderAction(s: State, pc: Pc): Action
    requires Holding(pc)
  {
    if pc.Open? && pc.o.OpenHeld? then Kmalloc(Some(s.ring.buf))
    else if pc.Open? && pc.o.OpenCount? then Counted(Unused(s.handles.Keys, 0))
    else Go
  }

  /** Steps the holder still needs, at most, before the semaphore is free. */
  function Distance(pc: Pc): nat {
    match pc
    case Idle(_) => 0
    case Open(_, o) => if o.OpenHeld? then 3 else if o.OpenCount? then 2 else if o.OpenUp? then 1 else 0
    case Read(_, r) =>
      if r.ReadHeld? then 4 else if r.ReadCopy? then 3 else if r.ReadMove? then 2 else if r.ReadUp? then 1 else 0
    case Write(_, w) =>
      if w.WriteHeld? then 5 else if w.WriteCopy? then 4 else if w.WriteMove? then 3
      else if w.WriteWrap? then 2 else if w.WriteUp? then 1 else 0
    case Release(_, c) =>
      if c.ReleaseHeld? then 3 else if c.ReleaseFree? then 2 else if c.ReleaseUp? then 1 else 0
  }

  lemma HolderDistance(pc: Pc)
    ensures Distance(pc) <= 5 && (Holding(pc) <==> Distance(pc) >= 1)
  {
  }

  lemma HolderNotBlocked(s: State, t: Tid)
    requires t in s.threads && Holding(s.threads[t]) && UseOk(s, s.threads[t])
    ensures Step(s, t, HolderAction(s, s.threads[t])).Some?
  {
    hide StepIdle, WaitRead, WaitWrite, SpaceFree;
    assert Unused(s.handles.Keys, 0) !in s.handles;
  }

  predicate Closer(s: State, t: Tid, s': State) {
    && t in s.threads && t in s'.threads
    && Distance(s'.threads[t]) < Distance(s.threads[t]) <= 5
    && (Distance(s'.threads[t]) > 0 <==> Holding(s'.threads[t]))
    && s'.sem == s.sem + (if Holding(s'.threads[t]) then 0 else 1)
  }

  lemma ReaderGetsCloser(s: State, t: Tid, a: Action, h: Hid, r: ReadPoint)
    requires t in s.threads && s.threads[t] == Read(h, r) && r.Inside() && HeldRead(s, t, a, h, r).Some?
    ensures Closer(s, t, HeldRead(s, t, a, h, r).value)
  {
  }

  lemma WriterGetsCloser(s: State, t: Tid, a: Action, h: Hid, w: WritePoint)
    requires t in s.threads && s.threads[t] == Write(h, w) && w.Inside() && HeldWrite(s, t, a, h, w).Some?
    ensures Closer(s, t, HeldWrite(s, t, a, h, w).value)
  {
    hide SpaceFree, Ring.Stored;
  }

  lemma OtherGetsCloser(s: State, t: Tid, a: Action)
    requires Step(s, t, a).Some? && Holding(s.threads[t]) && !InUse(s.threads[t])
    ensures Closer(s, t, Step(s, t, a).value)
  {
    hide StepIdle, HeldRead, HeldWrite, WaitRead, WaitWrite;
  }

  lemma HolderGetsCloser(s: State, t: Tid, a: Action)
    requires Step(s, t, a).Some? && Holding(s.threads[t])
    ensures Closer(s, t, Step(s, t, a).value)
  {
    hide StepIdle, StepOpen, StepRelease, HeldRead, HeldWrite, WaitRead, WaitWrite, Closer;
    match s.threads[t] {
      case Read(h, r) => ReaderGetsCloser(s, t, a, h, r);
      case Write(h, w) => WriterGetsCloser(s, t, a, h, w);
      case _ => OtherGetsCloser(s, t, a);
    }
  }

  /** At some moment along the trace the semaphore is free. */
  predicate ComesFree(s: State, trace: seq<(Tid, Action)>) {
    exists k :: 0 <= k <= |trace| && IsFree(Exec(s, trace[..k]))
  }

  predicate IsFree(m: Option<State>) { m.Some? && m.value.sem > 0 }

  lemma OthersLeaveHolder(s: State, v: Tid, a: Action, t: Tid)
    requires Step(s, v, a).Some? && t in s.threads && t != v && Holding(s.threads[t])
    ensures var s' := Step(s, v, a).value; t in s'.threads && s'.threads[t] == s.threads[t]
  {
    hide Step;
    StepMoves(s, v, a);
  }

  lemma {:induction false} HolderLeaves(s: State, trace: seq<(Tid, Action)>, t: Tid)
    requires t in s.threads && Holding(s.threads[t]) && Exec(s, trace).Some?
    ensures var m := Exec(s, trace).value;
      || ComesFree(s, trace)
      || (&& t in m.threads && Holding(m.threads[t])
          && Distance(m.threads[t]) + StepsOf(t, trace) <= Distance(s.threads[t]))
  {
    hide Step, Holding, Distance;
    if trace != [] {
      var last := |trace| - 1;
      var (v, a) := trace[last];
      HolderLeaves(s, trace[..last], t);
      var m := Exec(s, trace[..last]).value;
      StepNeedsThread(m, v, a);
      if ComesFree(s, trace[..last]) {
        var k :| 0 <= k <= last && IsFree(Exec(s, trace[..last][..k]));
        assert trace[..last][..k] == trace[..k];
      } else if v == t {
        HolderGetsCloser(m, v, a);
        assert trace[..|trace|] == trace;
      } else {
        OthersLeaveHolder(m, v, a, t);
      }
    }
  }

  /** The holder can always step, and in every continuation with five steps of it the semaphore has
      been free at some moment. */
  lemma HolderCanMove(size: nat, tids: set<Tid>, trace: seq<(Tid, Action)>, s: State, t: Tid, more: seq<(Tid, Action)>)
    requires size > 0 && Exec(Init(size, tids), trace) == Some(s)
    requires t in Holders(s) && Exec(s, more).Some?
    ensures 1 <= Distance(s.threads[t]) <= 5
    ensures Step(s, t, HolderAction(s, s.threads[t])).Some?
    ensures Distance(s.threads[t]) <= StepsOf(t, more) ==> ComesFree(s, more)
  {
    assert Reachable(s);
    ReachableInv(s);
    hide Exec, Step, Holding, Distance;
    assert UseOk(s, s.threads[t]);
    HolderNotBlocked(s, t);
    HolderLeaves(s, more, t);
    HolderDistance(s.threads[t]);
    var m := Exec(s, more).value;
    if t in m.threads { HolderDistance(m.threads[t]); }
  }

  /** Asleep and not woken, or waiting for a semaphore that another thread has. */
  predicate Blocked(s: State, pc: Pc) {
    || ReaderAsleep(pc) || WriterAsleep(pc)
    || (s.sem == 0 && AtDown(pc))
  }

  predicate AtDown(pc: Pc) {
    match pc
    case Idle(_) => false
    case Open(_, o) => o.OpenDown?
    case Read(_, r) => r.ReadDown?
    case Write(_, w) => w.WriteDown?
    case Release(_, c) => c.ReleaseDown?
  }

  /** What a thread in a call does next; a wait condition is evaluated one load at a time. */
  function NextAction(s: State, pc: Pc): Action {
    if AtDown(pc) then Down
    else if Holding(pc) then HolderAction(s, pc)
    else
      match pc
      case Read(_, ReadCheck(_, _, _, r1, w1)) => if r1.None? then See(R1) else if w1.None? then See(W1) else Go
      case Write(_, WriteCheck(_, _, r1, w1, r2, w2)) =>
        if r1.None? then See(R1) else if w1.None? then See(W1)
        else if r1 == w1 then Go
        else if r2.None? then See(R2) else if w2.None? then See(W2) else Go
      case _ => Go
  }

  /** In every reachable state a thread in a call is blocked in those two ways only, and when it is
      a signal ends the call; otherwise its next step is possible. */
  lemma NeverStuck(size: nat, tids: set<Tid>, trace: seq<(Tid, Action)>, s: State, t: Tid)
    requires size > 0 && Exec(Init(size, tids), trace) == Some(s) && t in s.threads && !s.threads[t].Idle?
    ensures Step(s, t, NextAction(s, s.threads[t])).Some? <==> !Blocked(s, s.threads[t])
    ensures Blocked(s, s.threads[t]) ==> Step(s, t, Interrupt).Some? && EndsWith(s, t, ERESTARTSYS)
  {
    assert Reachable(s);
    ReachableInv(s);
    UsesOne(s, t);
    hide Exec, Inv;
    if Holding(s.threads[t]) {
      HolderNotBlocked(s, t);
    } else {
      OutsideStep(s, t);
    }
  }

  /** Interrupted now, the call of `t` fails with `e`. */
  predicate EndsWith(s: State, t: Tid, e: Errno) {
    var next := Step(s, t, Interrupt);
    next.Some? && t in next.value.threads && next.value.threads[t] == Idle(Failed(e))
  }

  lemma OutsideStep(s: State, t: Tid)
    requires t in s.threads && !s.threads[t].Idle? && !Holding(s.threads[t]) && UseOk(s, s.threads[t])
    ensures Step(s, t, NextAction(s, s.threads[t])).Some? <==> !Blocked(s, s.threads[t])
    ensures Blocked(s, s.threads[t]) ==> Step(s, t, Interrupt).Some? && EndsWith(s, t, ERESTARTSYS)
  {
    hide HeldRead, HeldWrite, StepIdle, SeenFull;
  }

  // ----- runs

  lemma ExecMore(s: State, trace: seq<(Tid, Action)>, m: State, t: Tid, a: Action)
    requires Exec(s, trace) == Some(m)
    ensures Exec(s, trace + [(t, a)]) == Step(m, t, a)
  {
    hide Step;
    assert (trace + [(t, a)])[..|trace|] == trace;
  }

  lemma {:induction false} ExecConcat(s: State, trace: seq<(Tid, Action)>, more: seq<(Tid, Action)>)
    requires Exec(s, trace).Some?
    ensures Exec(s, trace + more) == Exec(Exec(s, trace).value, more)
  {
    hide Step;
    if more == [] {
      assert trace + more == trace;
    } else {
      var last := |more| - 1;
      assert (trace + more)[..|trace| + last] == trace + more[..last];
      ExecConcat(s, trace, more[..last]);
    }
  }

  lemma ReachExec(s: State, more: seq<(Tid, Action)>)
    requires Reachable(s) && Exec(s, more).Some?
    ensures Reachable(Exec(s, more).value)
  {
    var size: nat, tids: set<Tid>, trace: seq<(Tid, Action)> :|
      size > 0 && Exec(Init(size, tids), trace) == Some(s);
    ExecConcat(Init(size, tids), trace, more);
  }

  /** The steps of write after the clamp, spelled out. */
  lemma WriteCopyStep(s: State, t: Tid, h: Hid, bytes: seq<Byte>)
    requires t in s.threads && s.threads[t] == Write(h, WriteCopy(bytes))
    requires s.alloc && s.ring.wp + |bytes| <= |s.ring.buf|
    ensures Step(s, t, Go) == Some(At(s, t, Write(h, WriteMove(bytes))).(ring := s.ring.Stored(bytes)))
  {
    hide StepIdle, StepOpen, StepRelease, HeldRead, WaitRead, WaitWrite, Ring.Stored;
  }

  lemma WriteMoveStep(s: State, t: Tid, h: Hid, bytes: seq<Byte>)
    requires t in s.threads && s.threads[t] == Write(h, WriteMove(bytes))
    ensures Step(s, t, Go) == Some(At(s, t, Write(h, WriteWrap(|bytes|))).(
              ring := s.ring.(wp := s.ring.wp + |bytes|), written := s.written + bytes))
  {
    hide StepIdle, StepOpen, StepRelease, HeldRead, WaitRead, WaitWrite;
  }

  lemma WriteWrapStep(s: State, t: Tid, h: Hid, n: nat)
    requires t in s.threads && s.threads[t] == Write(h, WriteWrap(n))
    ensures Step(s, t, Go) == Some(At(s, t, Write(h, WriteUp(n))).(ring := s.ring.Wrapped()))
  {
    hide StepIdle, StepOpen, StepRelease, HeldRead, WaitRead, WaitWrite;
  }

  lemma WriteUpStep(s: State, t: Tid, h: Hid, n: nat)
    requires t in s.threads && s.threads[t] == Write(h, WriteUp(n))
    ensures Step(s, t, Go) == Some(UpTo(s, t, Write(h, WriteWake(n))))
  {
    hide StepIdle, StepOpen, StepRelease, HeldRead, WaitRead, WaitWrite;
  }

  /** An idle thread gets into open. */
  lemma EnterRun(s0: State, t: Tid, f: set<Flag>) returns (trace: seq<(Tid, Action)>, s: State)
    requires t in s0.threads && s0.threads[t].Idle? && s0.sem > 0
    ensures Exec(s0, trace) == Some(s)
    ensures s == s0.(threads := s0.threads[t := Open(f, OpenHeld)], sem := s0.sem - 1)
  {
    hide StepRelease, HeldRead, HeldWrite, WaitRead, WaitWrite;
    trace, s := [], s0;
    ExecMore(s0, trace, s, t, BeginOpen(f));
    trace, s := trace + [(t, BeginOpen(f))], Step(s, t, BeginOpen(f)).value;
    ExecMore(s0, trace, s, t, Down);
    trace, s := trace + [(t, Down)], Step(s, t, Down).value;
    assert s.threads == s0.threads[t := Open(f, OpenHeld)];
  }

  /** What an open that got its buffer leaves. */
  function Opened(s: State, t: Tid, f: set<Flag>, h: Hid): State {
    var s1 := if s.alloc then s
              else s.(alloc := true, ring := Ring(s.ring.buf, 0, 0), written := [], consumed := []);
    s1.(threads := s.threads[t := Idle(Done)], sem := s.sem + 1,
        nreaders := s.nreaders + (if Handle(f, Live).Reads() then 1 else 0),
        nwriters := s.nwriters + (if Handle(f, Live).Writes() then 1 else 0),
        handles := s.handles[h := Handle(f, Live)])
  }

  /** And through the rest of it. */
  lemma OpenRun(s0: State, t: Tid, f: set<Flag>, h: Hid) returns (trace: seq<(Tid, Action)>, s: State)
    requires t in s0.threads && s0.threads[t] == Open(f, OpenHeld) && h !in s0.handles
    ensures Exec(s0, trace) == Some(s) && s == Opened(s0, t, f, h)
  {
    hide StepIdle, StepRelease, HeldRead, HeldWrite, WaitRead, WaitWrite;
    trace, s := [], s0;
    var room := Kmalloc(Some(s0.ring.buf));
    ExecMore(s0, trace, s, t, room);
    trace, s := trace + [(t, room)], Step(s, t, room).value;
    ExecMore(s0, trace, s, t, Counted(h));
    trace, s := trace + [(t, Counted(h))], Step(s, t, Counted(h)).value;
    ExecMore(s0, trace, s, t, Go);
    trace, s := trace + [(t, Go)], Step(s, t, Go).value;
    assert s.threads == s0.threads[t := Idle(Done)];
  }

  /** Thread 0 opens a device of two bytes. */
  lemma OpenedRun(tids: set<Tid>, f: set<Flag>) returns (trace: seq<(Tid, Action)>, s: State)
    requires 0 in tids
    ensures Exec(Init(2, tids), trace) == Some(s) && s == Opened(Init(2, tids).(sem := 0), 0, f, 0)
  {
    var s0 := Init(2, tids);
    var more;
    trace, s := EnterRun(s0, 0, f);
    var s1 := s;
    more, s := OpenRun(s, 0, f, 0);
    ExecConcat(s0, trace, more);
    trace := trace + more;
    assert s1.threads[0 := Idle(Done)] == s0.threads[0 := Idle(Done)];
  }

  /** Thread `t` is about to write one byte that fits, and the others are idle. */
  predicate CanWrite(s: State, t: Tid, h: Hid) {
    && t in s.threads && (forall u :: u in s.threads ==> s.threads[u].Idle?) && s.sem > 0
    && h in s.handles && s.handles[h].status.Live? && s.handles[h].Writes()
    && s.alloc && s.ring.Ok() && s.ring.WriteCount(1) == 1
  }

  function Wrote(s: State, t: Tid, b: Byte): State {
    s.(threads := s.threads[t := Idle(Put(1))], ring := s.ring.Advanced([b]).Wrapped(), written := s.written + [b])
  }

  lemma FillRun(s0: State, t: Tid, h: Hid, b: Byte) returns (trace: seq<(Tid, Action)>, s: State)
    requires CanWrite(s0, t, h)
    ensures Exec(s0, trace) == Some(s)
    ensures s == s0.(threads := s0.threads[t := Write(h, WriteMove([b]))], sem := s0.sem - 1, ring := s0.ring.Stored([b]))
  {
    hide StepOpen, StepRelease, HeldRead, WaitRead;
    trace, s := [], s0;
    ExecMore(s0, trace, s, t, BeginWrite(h, [b]));
    trace, s := trace + [(t, BeginWrite(h, [b]))], Step(s, t, BeginWrite(h, [b])).value;
    ExecMore(s0, trace, s, t, Down);
    trace, s := trace + [(t, Down)], Step(s, t, Down).value;
    ExecMore(s0, trace, s, t, Go);
    trace, s := trace + [(t, Go)], Step(s, t, Go).value;
    ExecMore(s0, trace, s, t, Go);
    trace, s := trace + [(t, Go)], Step(s, t, Go).value;
    assert [b][..1] == [b];
    assert s.threads == s0.threads[t := Write(h, WriteMove([b]))];
  }

  lemma FinishRun(s0: State, t: Tid, h: Hid, bytes: seq<Byte>) returns (trace: seq<(Tid, Action)>, s: State)
    requires t in s0.threads && s0.threads[t] == Write(h, WriteMove(bytes))
    requires forall u :: u in s0.threads && u != t ==> s0.threads[u].Idle?
    ensures Exec(s0, trace) == Some(s)
    ensures s == s0.(threads := s0.threads[t := Idle(Put(|bytes|))], sem := s0.sem + 1,
                     ring := s0.ring.(wp := s0.ring.wp + |bytes|).Wrapped(), written := s0.written + bytes)
  {
    hide Exec, Step;
    trace, s := [], s0;
    ExecNone(s0);
    ExecMore(s0, trace, s, t, Go);
    WriteMoveStep(s, t, h, bytes);
    trace, s := trace + [(t, Go)], Step(s, t, Go).value;
    ExecMore(s0, trace, s, t, Go);
    WriteWrapStep(s, t, h, |bytes|);
    trace, s := trace + [(t, Go)], Step(s, t, Go).value;
    ExecMore(s0, trace, s, t, Go);
    WriteUpStep(s, t, h, |bytes|);
    trace, s := trace + [(t, Go)], Step(s, t, Go).value;
    ExecMore(s0, trace, s, t, Go);
    WakeStep(s, t, h, |bytes|);
    trace, s := trace + [(t, Go)], Step(s, t, Go).value;
    assert s.threads == s0.threads[t := Idle(Put(|bytes|))];
  }

  lemma WakeStep(s: State, t: Tid, h: Hid, n: nat)
    requires t in s.threads && s.threads[t] == Write(h, WriteWake(n))
    requires forall u :: u in s.threads && u != t ==> s.threads[u].Idle?
    ensures Step(s, t, Go) == Some(At(s, t, Idle(Put(n))))
  {
    hide StepIdle, StepOpen, StepRelease, HeldRead, WaitRead, HeldWrite;
    assert WakeReaders(At(s, t, Idle(Put(n)))).threads == At(s, t, Idle(Put(n))).threads;
  }

  lemma WriteRun(s0: State, t: Tid, h: Hid, b: Byte) returns (trace: seq<(Tid, Action)>, s: State)
    requires CanWrite(s0, t, h)
    ensures Exec(s0, trace) == Some(s) && s == Wrote(s0, t, b)
  {
    hide Exec;
    trace, s := FillRun(s0, t, h, b);
    var s1 := s;
    var more;
    more, s := FinishRun(s, t, h, [b]);
    ExecConcat(s0, trace, more);
    trace := trace + more;
    assert s1.threads[t := Idle(Put(1))] == s0.threads[t := Idle(Put(1))];
  }

  // ----- a leak does occur

  /** Thread 0's release is interrupted while another thread is inside. */
  lemma InterruptedRelease(s0: State, h: Hid) returns (trace: seq<(Tid, Action)>, s: State)
    requires 0 in s0.threads && s0.threads[0].Idle? && s0.sem == 0
    requires h in s0.handles && s0.handles[h].status.Live? && !Busy(s0, h)
    ensures Exec(s0, trace) == Some(s)
    ensures s == s0.(threads := s0.threads[0 := Idle(Failed(ERESTARTSYS))],
                     handles := s0.handles[h := s0.handles[h].(status := Leaked)])
  {
    hide StepOpen, HeldRead, HeldWrite, WaitRead, WaitWrite, Busy;
    trace, s := [], s0;
    ExecMore(s0, trace, s, 0, BeginRelease(h));
    trace, s := trace + [(0, BeginRelease(h))], Step(s, 0, BeginRelease(h)).value;
    ExecMore(s0, trace, s, 0, Interrupt);
    trace, s := trace + [(0, Interrupt)], Step(s, 0, Interrupt).value;
    assert s.threads == s0.threads[0 := Idle(Failed(ERESTARTSYS))];
    assert s.handles == s0.handles[h := s0.handles[h].(status := Leaked)];
  }

  /** What a completed release leaves. */
  function Released(s: State, t: Tid, h: Hid): State
    requires h in s.handles
  {
    var nr := s.nreaders - (if s.handles[h].Reads() then 1 else 0);
    var nw := s.nwriters - (if s.handles[h].Writes() then 1 else 0);
    s.(threads := s.threads[t := Idle(Done)], nreaders := nr, nwriters := nw,
       alloc := s.alloc && nr + nw != 0, handles := s.handles - {h})
  }

  lemma ReleaseRun(s0: State, t: Tid, h: Hid) returns (trace: seq<(Tid, Action)>, s: State)
    requires t in s0.threads && s0.threads[t].Idle? && s0.sem > 0
    requires h in s0.handles && s0.handles[h].status.Live? && !Busy(s0, h)
    ensures Exec(s0, trace) == Some(s) && s == Released(s0, t, h)
  {
    hide StepOpen, HeldRead, HeldWrite, WaitRead, WaitWrite, Busy;
    trace, s := [], s0;
    ExecMore(s0, trace, s, t, BeginRelease(h));
    trace, s := trace + [(t, BeginRelease(h))], Step(s, t, BeginRelease(h)).value;
    ExecMore(s0, trace, s, t, Down);
    trace, s := trace + [(t, Down)], Step(s, t, Down).value;
    var s1 := s;
    var more;
    more, s := ReleaseTail(s, t, h);
    ExecConcat(s0, trace, more);
    trace := trace + more;
    assert s1.threads[t := Idle(Done)] == s0.threads[t := Idle(Done)];
    assert s1.handles - {h} == s0.handles - {h};
  }

  lemma ReleaseTail(s0: State, t: Tid, h: Hid) returns (trace: seq<(Tid, Action)>, s: State)
    requires t in s0.threads && s0.threads[t] == Release(h, ReleaseHeld) && h in s0.handles
    ensures Exec(s0, trace) == Some(s) && s == Released(s0, t, h).(sem := s0.sem + 1)
  {
    hide Exec, Step;
    var s1 := CountDown(s0, t, h);
    ReleaseStep(s0, t, h, ReleaseHeld);
    ExecNone(s0);
    ExecMore(s0, [], s0, t, Go);
    ReleaseStep(s1, t, h, ReleaseFree);
    ExecMore(s0, [] + [(t, Go)], s1, t, Go);
    var s2 := Step(s1, t, Go).value;
    ReleaseStep(s2, t, h, ReleaseUp);
    ExecMore(s0, [] + [(t, Go)] + [(t, Go)], s2, t, Go);
    trace, s := [] + [(t, Go)] + [(t, Go)] + [(t, Go)], Step(s2, t, Go).value;
    assert s.threads == s0.threads[t := Idle(Done)];
  }

  lemma ExecNone(s: State)
    ensures Exec(s, []) == Some(s)
  {
  }

  function CountDown(s: State, t: Tid, h: Hid): State
    requires h in s.handles
  {
    At(s, t, Release(h, ReleaseFree)).(
      nreaders := s.nreaders - (if s.handles[h].Reads() then 1 else 0),
      nwriters := s.nwriters - (if s.handles[h].Writes() then 1 else 0),
      handles := s.handles - {h})
  }

  /** The steps of release inside the critical section, spelled out. */
  lemma ReleaseStep(s: State, t: Tid, h: Hid, c: ReleasePoint)
    requires t in s.threads && s.threads[t] == Release(h, c) && !c.ReleaseDown? && (c.ReleaseHeld? ==> h in s.handles)
    ensures Step(s, t, Go) == Some(
      if c.ReleaseHeld? then CountDown(s, t, h)
      else if c.ReleaseFree? then At(s, t, Release(h, ReleaseUp)).(alloc := s.alloc && s.nreaders + s.nwriters != 0)
      else UpTo(s, t, Idle(Done)))
  {
    hide StepIdle, StepOpen, HeldRead, HeldWrite, WaitRead, WaitWrite;
  }

  /** Thread 0's release has to wait for thread 1, which is inside open, and is interrupted. */
  lemma LeakRun() returns (s: State)
    ensures Reachable(s) && s.handles == map[0 := Handle({}, Leaked)]
    ensures s.threads == map[0 := Idle(Failed(ERESTARTSYS)), 1 := Open({}, OpenHeld)]
  {
    hide Exec;
    var trace;
    trace, s := OpenedRun({0, 1}, {});
    assert Reachable(s);
    var s1 := s;
    trace, s := EnterRun(s, 1, {});
    ReachExec(s1, trace);
    s1 := s;
    trace, s := InterruptedRelease(s, 0);
    ReachExec(s1, trace);
  }

  /** Thread 1 opens and closes properly. */
  lemma OpenAndClose(s0: State) returns (s: State)
    requires Reachable(s0) && 1 in s0.threads && s0.threads[1] == Open({}, OpenHeld) && 1 !in s0.handles
    requires !Busy(s0, 1)
    ensures Reachable(s) && s.handles == s0.handles && s.threads == s0.threads[1 := Idle(Done)]
  {
    hide Exec;
    var trace;
    trace, s := OpenRun(s0, 1, {}, 1);
    ReachExec(s0, trace);
    var s1 := s;
    assert !Busy(s1, 1);
    trace, s := ReleaseRun(s, 1, 1);
    ReachExec(s1, trace);
    assert s.handles == s0.handles && s.threads == s0.threads[1 := Idle(Done)];
  }

  /** It does happen. */
  lemma BufferCanLeak()
    ensures exists s: State :: Reachable(s) && Quiescent(s) && AllHaveMode(s) && s.alloc
  {
    hide Reachable;
    var s := LeakRun();
    s := OpenAndClose(s);
    ReachableInv(s);
    ModeKeepsBuffer(s, 0);
  }

  // ----- O_NONBLOCK

  predicate ReaderSleeping(s: State, t: Tid, f: set<Flag>) {
    && t in s.threads && s.threads[t].Read? && s.threads[t].r.ReadSleep?
    && s.threads[t].h in s.handles && s.handles[s.threads[t].h].flags == f
  }

  /** Some run puts a reader whose handle has flags `f` to sleep. */
  ghost predicate ReaderCanSleep(f: set<Flag>) {
    exists s: State, t: Tid :: Reachable(s) && ReaderSleeping(s, t, f)
  }

  /** A reader finds the ring empty and its flags do not stop it. */
  lemma BackOutRun(s0: State, f: set<Flag>) returns (trace: seq<(Tid, Action)>, s: State)
    requires 0 in s0.threads && s0.threads[0].Idle? && s0.sem > 0 && s0.ring.Empty()
    requires 0 in s0.handles && s0.handles[0] == Handle(f, Live) && WrOnly !in f && f != {NonBlock}
    ensures Exec(s0, trace) == Some(s) && s.ring == s0.ring && s.handles == s0.handles
    ensures 0 in s.threads && s.threads[0] == Read(0, ReadCheck(1, false, false, None, None))
  {
    hide StepOpen, StepRelease, HeldWrite, WaitWrite;
    trace, s := [], s0;
    ExecMore(s0, trace, s, 0, BeginRead(0, 1));
    trace, s := trace + [(0, BeginRead(0, 1))], Step(s, 0, BeginRead(0, 1)).value;
    ExecMore(s0, trace, s, 0, Down);
    trace, s := trace + [(0, Down)], Step(s, 0, Down).value;
    ExecMore(s0, trace, s, 0, Go);
    trace, s := trace + [(0, Go)], Step(s, 0, Go).value;
    ExecMore(s0, trace, s, 0, Go);
    trace, s := trace + [(0, Go)], Step(s, 0, Go).value;
  }

  /** One evaluation of the wait condition on an empty ring. */
  lemma CheckRun(s0: State, queued: bool) returns (trace: seq<(Tid, Action)>, s: State)
    requires s0.ring.Empty() && 0 in s0.threads && s0.threads[0] == Read(0, ReadCheck(1, queued, false, None, None))
    ensures Exec(s0, trace) == Some(s) && s.ring == s0.ring && s.handles == s0.handles && 0 in s.threads
    ensures s.threads[0] == Read(0, if queued then ReadSleep(1, false) else ReadCheck(1, true, false, None, None))
  {
    hide StepIdle, StepOpen, StepRelease, HeldRead, HeldWrite, WaitWrite;
    trace, s := [], s0;
    ExecMore(s0, trace, s, 0, See(R1));
    trace, s := trace + [(0, See(R1))], Step(s, 0, See(R1)).value;
    ExecMore(s0, trace, s, 0, See(W1));
    trace, s := trace + [(0, See(W1))], Step(s, 0, See(W1)).value;
    ExecMore(s0, trace, s, 0, Go);
    trace, s := trace + [(0, Go)], Step(s, 0, Go).value;
  }

  lemma SleepRun(f: set<Flag>) returns (s: State)
    requires WrOnly !in f && f != {NonBlock}
    ensures Reachable(s) && ReaderSleeping(s, 0, f)
  {
    hide Exec;
    var trace;
    trace, s := OpenedRun({0}, f);
    assert Reachable(s);
    var s1 := s;
    trace, s := BackOutRun(s, f);
    ReachExec(s1, trace);
    s1 := s;
    trace, s := CheckRun(s, false);
    ReachExec(s1, trace);
    s1 := s;
    trace, s := CheckRun(s, true);
    ReachExec(s1, trace);
  }

  /** The `==` test of read: a reader can be put to sleep exactly when its handle can read and its
      flags are anything but O_NONBLOCK alone. So O_RDWR|O_NONBLOCK, for one, does block. */
  lemma ReaderSleepsIff(f: set<Flag>)
    ensures ReaderCanSleep(f) <==> WrOnly !in f && f != {NonBlock}
  {
    if WrOnly !in f && f != {NonBlock} {
      var s := SleepRun(f);
    }
    forall s: State, t: Tid | Reachable(s) && ReaderSleeping(s, t, f)
      ensures WrOnly !in f && f != {NonBlock}
    {
      ReachableInv(s);
      assert MayWait(s, s.threads[t]) && UseOk(s, s.threads[t]);
    }
  }

  predicate WriterSleeping(s: State, t: Tid, f: set<Flag>) {
    && t in s.threads && s.threads[t].Write? && s.threads[t].w.WriteSleep?
    && s.threads[t].h in s.handles && s.handles[s.threads[t].h].flags == f
  }

  /** Some run puts a writer whose handle has flags `f` to sleep. */
  ghost predicate WriterCanSleep(f: set<Flag>) {
    exists s: State, t: Tid :: Reachable(s) && WriterSleeping(s, t, f)
  }

  /** Thread 0 finds the ring full and its flags do not stop it. */
  lemma FullRun(s0: State, f: set<Flag>) returns (trace: seq<(Tid, Action)>, s: State)
    requires 0 in s0.threads && s0.threads[0].Idle? && s0.sem > 0 && s0.ring.Free() == 0
    requires 0 in s0.handles && s0.handles[0] == Handle(f, Live) && s0.handles[0].Writes() && NonBlock !in f
    ensures Exec(s0, trace) == Some(s) && s.ring == s0.ring && s.handles == s0.handles
    ensures 0 in s.threads && s.threads[0] == Write(0, WriteCheck([0], false, None, None, None, None))
  {
    hide StepOpen, StepRelease, HeldRead, WaitRead, SpaceFree;
    trace, s := [], s0;
    ExecMore(s0, trace, s, 0, BeginWrite(0, [0]));
    trace, s := trace + [(0, BeginWrite(0, [0]))], Step(s, 0, BeginWrite(0, [0])).value;
    ExecMore(s0, trace, s, 0, Down);
    trace, s := trace + [(0, Down)], Step(s, 0, Down).value;
    ExecMore(s0, trace, s, 0, Go);
    trace, s := trace + [(0, Go)], Step(s, 0, Go).value;
    ExecMore(s0, trace, s, 0, Go);
    trace, s := trace + [(0, Go)], Step(s, 0, Go).value;
  }

  /** One evaluation of the wait condition on a full ring of two bytes. */
  lemma FullCheckRun(s0: State) returns (trace: seq<(Tid, Action)>, s: State)
    requires |s0.ring.buf| == 2 && s0.ring.rp == 0 && s0.ring.wp == 1
    requires 0 in s0.threads && s0.threads[0] == Write(0, WriteCheck([0], false, None, None, None, None))
    ensures Exec(s0, trace) == Some(s) && s.handles == s0.handles
    ensures 0 in s.threads && s.threads[0] == Write(0, WriteSleep([0], false))
  {
    hide StepIdle, StepOpen, StepRelease, HeldRead, WaitRead, HeldWrite;
    trace, s := [], s0;
    var loads := [R1, W1, R2, W2];
    for i := 0 to 4
      invariant Exec(s0, trace) == Some(s) && s.handles == s0.handles && s.ring == s0.ring && 0 in s.threads
      invariant s.threads[0] == Write(0, WriteCheck([0], false,
        if i > 0 then Some(0) else None, if i > 1 then Some(1) else None,
        if i > 2 then Some(0) else None, if i > 3 then Some(1) else None))
    {
      ExecMore(s0, trace, s, 0, See(loads[i]));
      trace, s := trace + [(0, See(loads[i]))], Step(s, 0, See(loads[i])).value;
    }
    ExecMore(s0, trace, s, 0, Go);
    trace, s := trace + [(0, Go)], Step(s, 0, Go).value;
  }

  lemma FullSleepRun(f: set<Flag>) returns (s: State)
    requires (WrOnly in f) != (RdWr in f) && NonBlock !in f
    ensures Reachable(s) && WriterSleeping(s, 0, f)
  {
    hide Exec, Step;
    var trace;
    trace, s := OpenedRun({0}, f);
    assert Reachable(s);
    var s1 := s;
    trace, s := WriteRun(s, 0, 0, 7);
    ReachExec(s1, trace);
    s1 := s;
    trace, s := FullRun(s, f);
    ReachExec(s1, trace);
    s1 := s;
    trace, s := FullCheckRun(s);
    ReachExec(s1, trace);
  }

  /** The `&` test of write: a writer can be put to sleep exactly when its handle can write, with
      O_WRONLY or with O_RDWR, and O_NONBLOCK is not among its flags. */
  lemma WriterSleepsIff(f: set<Flag>)
    ensures WriterCanSleep(f) <==> (WrOnly in f) != (RdWr in f) && NonBlock !in f
  {
    if (WrOnly in f) != (RdWr in f) && NonBlock !in f {
      var s := FullSleepRun(f);
    }
    forall s: State, t: Tid | Reachable(s) && WriterSleeping(s, t, f)
      ensures (WrOnly in f) != (RdWr in f) && NonBlock !in f
    {
      ReachableInv(s);
      assert MayWait(s, s.threads[t]) && UseOk(s, s.threads[t]);
    }
  }
}
