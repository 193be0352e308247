/** What the calls on the pipe device return to their callers, over every run: the bytes and counts
    that came back are those that moved, and every error says what happened. */
module PipeCalls {
  import opened Kernel
  import opened Ring
  import opened PipeProtocol
  import opened PipeInvariant
  import opened PipeTheorems

  // ----- what a step moves

  /** What has been appended to a history. */
  function Grown(was: seq<Byte>, now: seq<Byte>): seq<Byte> {
    if was <= now then now[|was|..] else []
  }

  /** Bytes a reader has taken off the queue and not yet returned. */
  function BytesInHand(pc: Pc): seq<Byte> {
    match pc
    case Read(_, ReadUp(bytes)) => bytes
    case Read(_, ReadWake(bytes)) => bytes
    case _ => []
  }

  /** What a call that has just ended returned. */
  function BytesReturned(pc: Pc, pc': Pc): seq<Byte> {
    if !pc.Idle? && pc'.Idle? && pc'.ret.Got? then pc'.ret.bytes else []
  }

  function CountInHand(pc: Pc): nat {
    match pc
    case Write(_, WriteWrap(n)) => n
    case Write(_, WriteUp(n)) => n
    case Write(_, WriteWake(n)) => n
    case _ => 0
  }

  function CountReturned(pc: Pc, pc': Pc): nat {
    if !pc.Idle? && pc'.Idle? && pc'.ret.Put? then pc'.ret.n else 0
  }

  /** What the next step of a thread adds to the histories. */
  function Taking(pc: Pc): seq<Byte> { if pc.Read? && pc.r.ReadMove? then pc.r.bytes else [] }

  function Putting(pc: Pc): seq<Byte> { if pc.Write? && pc.w.WriteMove? then pc.w.bytes else [] }

  predicate Conserves(s: State, t: Tid, s': State) {
    && t in s.threads && t in s'.threads
    && BytesInHand(s.threads[t]) + Grown(s.consumed, s'.consumed)
         == BytesReturned(s.threads[t], s'.threads[t]) + BytesInHand(s'.threads[t])
    && CountInHand(s.threads[t]) + |Grown(s.written, s'.written)|
         == CountReturned(s.threads[t], s'.threads[t]) + CountInHand(s'.threads[t])
  }

  function Added(s: State, s': State): map<Hid, Handle> {
    map h | h in s'.handles && h !in s.handles :: s'.handles[h]
  }

  function Removed(s: State, s': State): set<Hid> { s.handles.Keys - s'.handles.Keys }

  /** What steps do to the histories and the handles. */
  predicate Changes(s: State, pc: Pc, a: Action, s': State) {
    && Grown(s.consumed, s'.consumed) == Taking(pc)
    && Grown(s.written, s'.written) == Putting(pc)
    && Added(s, s') == (if pc.Open? && pc.o.OpenCount? && a.Counted? then map[a.h := Handle(pc.flags, Live)] else map[])
    && Removed(s, s') == (if pc.Release? && pc.c.ReleaseHeld? then {pc.h} else {})
  }

  lemma HeldReadChanges(s: State, t: Tid, a: Action, h: Hid, r: ReadPoint)
    requires r.Inside() && HeldRead(s, t, a, h, r).Some?
    ensures Changes(s, Read(h, r), a, HeldRead(s, t, a, h, r).value)
  {
  }

  lemma HeldWriteChanges(s: State, t: Tid, a: Action, h: Hid, w: WritePoint)
    requires w.Inside() && HeldWrite(s, t, a, h, w).Some?
    ensures Changes(s, Write(h, w), a, HeldWrite(s, t, a, h, w).value)
  {
  }

  lemma OutsideChanges(s: State, pc: Pc, a: Action, s': State)
    requires Untouched(s, s') && SameCounts(s, s') && InUse(pc) && !Holding(pc)
    ensures Changes(s, pc, a, s')
  {
  }

  lemma OpenChanges(s: State, t: Tid, a: Action, flags: set<Flag>, o: OpenPoint)
    requires StepOpen(s, t, a, flags, o).Some?
    ensures Changes(s, Open(flags, o), a, StepOpen(s, t, a, flags, o).value)
  {
  }

  lemma ReleaseChanges(s: State, t: Tid, a: Action, h: Hid, c: ReleasePoint)
    requires StepRelease(s, t, a, h, c).Some?
    ensures Changes(s, Release(h, c), a, StepRelease(s, t, a, h, c).value)
  {
    var s' := StepRelease(s, t, a, h, c).value;
    if c.ReleaseHeld? { assert Removed(s, s') == {h}; }
  }

  lemma IdleChanges(s: State, t: Tid, a: Action, ret: Ret)
    requires StepIdle(s, t, a).Some?
    ensures Changes(s, Idle(ret), a, StepIdle(s, t, a).value)
  {
  }

  lemma StepChanges(s: State, t: Tid, a: Action)
    requires Step(s, t, a).Some?
    ensures t in s.threads && Changes(s, s.threads[t], a, Step(s, t, a).value)
  {
    hide StepIdle, StepOpen, StepRelease, HeldRead, WaitRead, HeldWrite, WaitWrite, Changes, Used;
    match s.threads[t] {
      case Idle(ret) => IdleChanges(s, t, a, ret);
      case Open(flags, o) => OpenChanges(s, t, a, flags, o);
      case Read(h, r) => if r.Inside() { HeldReadChanges(s, t, a, h, r); } else { WaitChanges(s, t, a); }
      case Write(h, w) => if w.Inside() { HeldWriteChanges(s, t, a, h, w); } else { WaitChanges(s, t, a); }
      case Release(h, c) => ReleaseChanges(s, t, a, h, c);
    }
  }

  lemma WaitChanges(s: State, t: Tid, a: Action)
    requires Step(s, t, a).Some? && InUse(s.threads[t]) && !Holding(s.threads[t])
    ensures Changes(s, s.threads[t], a, Step(s, t, a).value)
  {
    hide Step;
    StepUsed(s, t, a);
    OutsideChanges(s, s.threads[t], a, Step(s, t, a).value);
  }

  // ----- conservation, step by step and over runs

  predicate HandKept(s: State, t: Tid, s': State) {
    && t in s.threads && t in s'.threads
    && var pc, pc' := s.threads[t], s'.threads[t];
    && BytesInHand(pc) + Taking(pc) == BytesReturned(pc, pc') + BytesInHand(pc')
    && CountInHand(pc) + |Putting(pc)| == CountReturned(pc, pc') + CountInHand(pc')
  }

  lemma HeldReadHand(s: State, t: Tid, a: Action, h: Hid, r: ReadPoint)
    requires t in s.threads && s.threads[t] == Read(h, r) && HeldRead(s, t, a, h, r).Some?
    ensures HandKept(s, t, HeldRead(s, t, a, h, r).value)
  {
  }

  lemma WaitReadHand(s: State, t: Tid, a: Action, h: Hid, r: ReadPoint)
    requires t in s.threads && s.threads[t] == Read(h, r) && WaitRead(s, t, a, h, r).Some?
    ensures HandKept(s, t, WaitRead(s, t, a, h, r).value)
  {
  }

  lemma HeldWriteHand(s: State, t: Tid, a: Action, h: Hid, w: WritePoint)
    requires t in s.threads && s.threads[t] == Write(h, w) && HeldWrite(s, t, a, h, w).Some?
    ensures HandKept(s, t, HeldWrite(s, t, a, h, w).value)
  {
    hide SpaceFree;
  }

  lemma WaitWriteHand(s: State, t: Tid, a: Action, h: Hid, w: WritePoint)
    requires t in s.threads && s.threads[t] == Write(h, w) && WaitWrite(s, t, a, h, w).Some?
    ensures HandKept(s, t, WaitWrite(s, t, a, h, w).value)
  {
  }

  lemma IdleHand(s: State, t: Tid, a: Action)
    requires t in s.threads && s.threads[t].Idle? && StepIdle(s, t, a).Some?
    ensures HandKept(s, t, StepIdle(s, t, a).value)
  {
  }

  lemma OpenHand(s: State, t: Tid, a: Action, flags: set<Flag>, o: OpenPoint)
    requires t in s.threads && s.threads[t] == Open(flags, o) && StepOpen(s, t, a, flags, o).Some?
    ensures HandKept(s, t, StepOpen(s, t, a, flags, o).value)
  {
  }

  lemma ReleaseHand(s: State, t: Tid, a: Action, h: Hid, c: ReleasePoint)
    requires t in s.threads && s.threads[t] == Release(h, c) && StepRelease(s, t, a, h, c).Some?
    ensures HandKept(s, t, StepRelease(s, t, a, h, c).value)
  {
  }

  lemma StepHand(s: State, t: Tid, a: Action)
    requires Step(s, t, a).Some?
    ensures HandKept(s, t, Step(s, t, a).value)
  {
    hide StepIdle, StepOpen, StepRelease, HeldRead, WaitRead, HeldWrite, WaitWrite, HandKept;
    match s.threads[t] {
      case Read(h, r) => if r.Inside() { HeldReadHand(s, t, a, h, r); } else { WaitReadHand(s, t, a, h, r); }
      case Write(h, w) => if w.Inside() { HeldWriteHand(s, t, a, h, w); } else { WaitWriteHand(s, t, a, h, w); }
      case Idle(_) => IdleHand(s, t, a);
      case Open(flags, o) => OpenHand(s, t, a, flags, o);
      case Release(h, c) => ReleaseHand(s, t, a, h, c);
    }
  }

  /** Every step: what the thread had in hand and what the step moves is what the step returns and
      what the thread then has in hand; bytes for a reader, a count for a writer. */
  lemma StepConserves(s: State, t: Tid, a: Action)
    requires Step(s, t, a).Some?
    ensures Conserves(s, t, Step(s, t, a).value)
  {
    hide Step;
    StepChanges(s, t, a);
    StepHand(s, t, a);
  }

  /** What thread `t`'s own steps took off the queue in a run, and what its reads returned. */
  function Took(s0: State, trace: seq<(Tid, Action)>, t: Tid): seq<Byte> {
    if trace == [] then []
    else
      var before := trace[..|trace| - 1];
      Took(s0, before, t)
        + match (Exec(s0, before), Exec(s0, trace))
          case (Some(m), Some(s)) => if trace[|trace| - 1].0 == t then Grown(m.consumed, s.consumed) else []
          case _ => []
  }

  function GotBack(s0: State, trace: seq<(Tid, Action)>, t: Tid): seq<Byte> {
    if trace == [] then []
    else
      var before := trace[..|trace| - 1];
      GotBack(s0, before, t)
        + match (Exec(s0, before), Exec(s0, trace))
          case (Some(m), Some(s)) =>
            if trace[|trace| - 1].0 == t && t in m.threads && t in s.threads
            then BytesReturned(m.threads[t], s.threads[t]) else []
          case _ => []
  }

  /** How much they added to it, and the sum of what its writes returned. */
  function PutOn(s0: State, trace: seq<(Tid, Action)>, t: Tid): nat {
    if trace == [] then 0
    else
      var before := trace[..|trace| - 1];
      PutOn(s0, before, t)
        + match (Exec(s0, before), Exec(s0, trace))
          case (Some(m), Some(s)) => if trace[|trace| - 1].0 == t then |Grown(m.written, s.written)| else 0
          case _ => 0
  }

  function Reported(s0: State, trace: seq<(Tid, Action)>, t: Tid): nat {
    if trace == [] then 0
    else
      var before := trace[..|trace| - 1];
      Reported(s0, before, t)
        + match (Exec(s0, before), Exec(s0, trace))
          case (Some(m), Some(s)) =>
            if trace[|trace| - 1].0 == t && t in m.threads && t in s.threads
            then CountReturned(m.threads[t], s.threads[t]) else 0
          case _ => 0
  }

  /** In every run, what a thread took off the queue is what its reads returned, followed by what it
      has in hand; and what it put on it is counted by what its writes returned and will return. */
  lemma {:induction false} NothingLostOrInvented(size: nat, tids: set<Tid>, trace: seq<(Tid, Action)>, s: State, t: Tid)
    requires size > 0 && Exec(Init(size, tids), trace) == Some(s) && t in s.threads
    ensures Took(Init(size, tids), trace, t) == GotBack(Init(size, tids), trace, t) + BytesInHand(s.threads[t])
    ensures PutOn(Init(size, tids), trace, t) == Reported(Init(size, tids), trace, t) + CountInHand(s.threads[t])
  {
    hide Step, Grown, BytesReturned, CountReturned;
    if trace != [] {
      var last := |trace| - 1;
      var s0 := Init(size, tids);
      var m := Exec(s0, trace[..last]).value;
      var (u, a) := trace[last];
      StepNeedsThread(m, u, a);
      StepMoves(m, u, a);
      NothingLostOrInvented(size, tids, trace[..last], m, t);
      if u == t {
        StepConserves(m, t, a);
        var g, hand := Grown(m.consumed, s.consumed), BytesInHand(m.threads[t]);
        var ret, hand' := BytesReturned(m.threads[t], s.threads[t]), BytesInHand(s.threads[t]);
        Regroup(GotBack(s0, trace[..last], t), hand, g, ret, hand');
      } else {
        WokenKeepsHand(m.threads[t]);
      }
    }
  }

  /** First in, first out: whatever the interleaving, faults and signals, the bytes accepted since
      the buffer was allocated are the bytes delivered followed by the bytes queued; and every thread
      has returned to its caller what it delivered, in order, and the number of bytes it got accepted,
      but for what it has in hand. */
  lemma FifoOverEveryRun(size: nat, tids: set<Tid>, trace: seq<(Tid, Action)>, s: State)
    requires size > 0 && Exec(Init(size, tids), trace) == Some(s)
    ensures s.ring.Loose()
    ensures s.alloc ==> s.written == s.consumed + s.ring.Contents()
    ensures forall t :: t in s.threads ==>
      && Took(Init(size, tids), trace, t) == GotBack(Init(size, tids), trace, t) + BytesInHand(s.threads[t])
      && PutOn(Init(size, tids), trace, t) == Reported(Init(size, tids), trace, t) + CountInHand(s.threads[t])
  {
    assert Reachable(s);
    ReachableInv(s);
    forall t | t in s.threads
      ensures Took(Init(size, tids), trace, t) == GotBack(Init(size, tids), trace, t) + BytesInHand(s.threads[t])
      ensures PutOn(Init(size, tids), trace, t) == Reported(Init(size, tids), trace, t) + CountInHand(s.threads[t])
    {
      NothingLostOrInvented(size, tids, trace, s, t);
    }
  }

  lemma Regroup<T>(a: seq<T>, b: seq<T>, c: seq<T>, d: seq<T>, e: seq<T>)
    requires b + c == d + e
    ensures (a + b) + c == (a + d) + e
  {
    assert (a + b) + c == a + (b + c);
  }

  lemma WokenKeepsHand(pc: Pc)
    ensures BytesInHand(WakeReader(pc)) == BytesInHand(pc) == BytesInHand(WakeWriter(pc))
    ensures CountInHand(WakeReader(pc)) == CountInHand(pc) == CountInHand(WakeWriter(pc))
  {
  }

  // ----- the contract of every call

  /** What can be observed of a thread's latest call: how it was made and on a handle with which
      flags, the ring at its latest test under the semaphore, the bytes its steps took and put, the
      handles they added and removed, whether the test found no byte to read or no space to write,
      whether a copy faulted, a signal came, or memory ran out. */
  datatype Log = Log(call: Option<Action>, flags: set<Flag>, found: Option<Ring>,
                     took: seq<Byte>, put: seq<Byte>, added: map<Hid, Handle>, removed: set<Hid>,
                     refused: bool, faulted: bool, signalled: bool, noMemory: bool)

  const NoCall: Log := Log(None, {}, None, [], [], map[], {}, false, false, false, false)

  /** The thread, holding the semaphore, is at the test of the ring. */
  predicate Tests(pc: Pc) { (pc.Read? && pc.r.ReadHeld?) || (pc.Write? && pc.w.WriteHeld?) }

  /** The test finds nothing for the call: no byte queued, or all slots but the reserved one taken. */
  predicate Refuses(ring: Ring, pc: Pc) {
    Tests(pc) && ring.Loose() && |ring.Contents()| == if pc.Read? then 0 else |ring.buf| - 1
  }

  /** A call begins. */
  function Begun(s: State, a: Action): Log {
    var flags := match a
                 case BeginOpen(flags) => flags
                 case BeginRead(h, _) => if h in s.handles then s.handles[h].flags else {}
                 case BeginWrite(h, _) => if h in s.handles then s.handles[h].flags else {}
                 case _ => {};
    NoCall.(call := Some(a), flags := flags)
  }

  function Noted(log: Log, s: State, pc: Pc, a: Action, s': State): Log {
    if pc.Idle? then Begun(s, a)
    else
      log.(found := if Tests(pc) then Some(s.ring) else log.found,
           took := log.took + Grown(s.consumed, s'.consumed),
           put := log.put + Grown(s.written, s'.written),
           added := log.added + Added(s, s'),
           removed := log.removed + Removed(s, s'),
           refused := log.refused || Refuses(s.ring, pc),
           faulted := log.faulted || a.Fault?,
           signalled := log.signalled || a.Interrupt?,
           noMemory := log.noMemory || (a == Kmalloc(None) && !s.alloc))
  }

  /** The log of thread `t` after a trace: only its own steps count. */
  function LogOf(s0: State, trace: seq<(Tid, Action)>, t: Tid): Log {
    if trace == [] then NoCall
    else
      var last := |trace| - 1;
      var log := LogOf(s0, trace[..last], t);
      match Exec(s0, trace[..last])
      case None => log
      case Some(m) =>
        var (u, a) := trace[last];
        if u != t || t !in m.threads || Step(m, t, a).None? then log
        else Noted(log, m, m.threads[t], a, Step(m, t, a).value)
  }

  /** `bytes` are the right ones for a read of `count` that finds this ring: from the head of the
      queue, and fewer than asked for only where the queue or the buffer ends. */
  predicate Delivers(ring: Ring, count: nat, bytes: seq<Byte>) {
    && ring.Loose() && bytes <= ring.Contents() && |bytes| <= count
    && (|bytes| == count || bytes == ring.Contents() || ring.rp + |bytes| == |ring.buf|)
    && (count > 0 ==> bytes != [])
  }

  /** `bytes` are the right ones for a write of `data` that finds this ring: from the head of the
      data, and not all of it only where the free space or the buffer ends. */
  predicate Accepts(ring: Ring, data: seq<Byte>, bytes: seq<Byte>) {
    && ring.Loose() && bytes <= data && |ring.Contents()| + |bytes| < |ring.buf|
    && (bytes == data || |ring.Contents()| + |bytes| == |ring.buf| - 1 || ring.wp + |bytes| == |ring.buf|)
    && (data != [] ==> bytes != [])
  }

  predicate NoHandles(log: Log) { log.added == map[] && log.removed == {} && !log.noMemory }

  predicate NothingMoved(log: Log) { log.took == [] && log.put == [] }

  predicate AddedOne(log: Log) { exists h :: h in log.added && log.added == map[h := Handle(log.flags, Live)] }

  /** What a finished call has returned and done, from what was observed of it. */
  predicate Returned(log: Log, s: State, ret: Ret) {
    match log.call
    case None => ret.Nothing?
    case Some(BeginOpen(flags)) =>
      && NothingMoved(log) && log.removed == {} && log.flags == flags
      && (ret == Failed(ERESTARTSYS) <==> log.signalled)
      && (ret == Failed(ENOMEM) <==> log.noMemory)
      && ret in {Done, Failed(ERESTARTSYS), Failed(ENOMEM)}
      && (if ret.Done? then AddedOne(log) else log.added == map[])
    case Some(BeginRead(h, count)) =>
      && NoHandles(log) && log.put == []
      && (ret == Failed(ERESTARTSYS) <==> log.signalled)
      && (ret == Failed(EFAULT) <==> log.faulted)
      && (ret == Failed(EAGAIN) <==> log.refused && log.flags == {NonBlock})
      && ret in {Got(log.took), Failed(ERESTARTSYS), Failed(EFAULT), Failed(EAGAIN)}
      && (if ret.Got? then log.found.Some? && Delivers(log.found.value, count, log.took) else log.took == [])
    case Some(BeginWrite(h, data)) =>
      && NoHandles(log) && log.took == []
      && (ret == Failed(ERESTARTSYS) <==> log.signalled)
      && (ret == Failed(EFAULT) <==> log.faulted)
      && (ret == Failed(EAGAIN) <==> log.refused && NonBlock in log.flags)
      && ret in {Put(|log.put|), Failed(ERESTARTSYS), Failed(EFAULT), Failed(EAGAIN)}
      && (if ret.Put? then log.found.Some? && Accepts(log.found.value, data, log.put) else log.put == [])
    case Some(BeginRelease(h)) =>
      && NothingMoved(log) && log.added == map[]
      && (ret == Failed(ERESTARTSYS) <==> log.signalled)
      && ret in {Done, Failed(ERESTARTSYS)}
      && (if ret.Done? then log.removed == {h}
          else log.removed == {} && h in s.handles && s.handles[h].status.Leaked?)
    case Some(_) => false
  }

  predicate Opening(log: Log, flags: set<Flag>) {
    && log.call == Some(BeginOpen(flags)) && log.flags == flags && NothingMoved(log)
    && log.removed == {} && !log.signalled && !log.noMemory
  }

  predicate Using(log: Log, s: State, h: Hid) {
    && NoHandles(log) && !log.signalled && !log.faulted
    && h in s.handles && s.handles[h].flags == log.flags
  }

  /** The arguments of the call, as far as a point of it still has them. */
  predicate ReadArgs(log: Log, h: Hid, r: ReadPoint) {
    && log.call.Some? && log.call.value.BeginRead? && log.call.value.h == h
    && (r.ReadDown? || r.ReadHeld? || r.ReadFlags? || r.ReadCheck? || r.ReadSleep? ==> r.count == log.call.value.count)
  }

  predicate WriteArgs(log: Log, h: Hid, w: WritePoint) {
    && log.call.Some? && log.call.value.BeginWrite? && log.call.value.h == h
    && (w.WriteDown? || w.WriteHeld? || w.WriteFlags? || w.WriteCheck? || w.WriteSleep? ==> w.data == log.call.value.data)
  }

  predicate ReadTold(log: Log, s: State, h: Hid, r: ReadPoint) {
    && Using(log, s, h) && ReadArgs(log, h, r) && log.put == []
    && (if r.ReadFlags? then log.refused else log.refused ==> log.flags != {NonBlock})
    && log.took == (if r.ReadUp? || r.ReadWake? then r.bytes else [])
    && match r
       case ReadCopy(n) => log.found == Some(s.ring) && n == s.ring.ReadCount(log.call.value.count)
       case ReadMove(bytes) => log.found.Some? && Delivers(log.found.value, log.call.value.count, bytes)
       case ReadUp(bytes) => log.found.Some? && Delivers(log.found.value, log.call.value.count, bytes)
       case ReadWake(bytes) => log.found.Some? && Delivers(log.found.value, log.call.value.count, bytes)
       case _ => true
  }

  predicate WriteTold(log: Log, s: State, h: Hid, w: WritePoint) {
    && Using(log, s, h) && WriteArgs(log, h, w) && log.took == []
    && (if w.WriteFlags? then log.refused else log.refused ==> NonBlock !in log.flags)
    && (w.WriteCopy? || w.WriteMove? ==>
          log.found.Some? && Accepts(log.found.value, log.call.value.data, w.bytes))
    && (if w.WriteWrap? || w.WriteUp? || w.WriteWake?
        then log.found.Some? && w.n == |log.put| && Accepts(log.found.value, log.call.value.data, log.put)
        else log.put == [])
  }

  predicate Releases(log: Log, h: Hid) {
    log.call == Some(BeginRelease(h)) && NothingMoved(log) && log.added == map[] && !log.signalled
  }

  /** What a thread's log says at every point of a call. */
  predicate Told(log: Log, s: State, pc: Pc) {
    match pc
    case Idle(ret) => Returned(log, s, ret)
    case Open(flags, o) => Opening(log, flags) && if o.OpenUp? then AddedOne(log) else log.added == map[]
    case Read(h, r) => ReadTold(log, s, h, r)
    case Write(h, w) => WriteTold(log, s, h, w)
    case Release(h, c) => Releases(log, h) && log.removed == if c.ReleaseDown? || c.ReleaseHeld? then {} else {h}
  }

  // ----- the mover's log

  /** The log after a step of read or write, spelled out. */
  lemma UseNoted(log: Log, s: State, pc: Pc, a: Action, s': State)
    requires InUse(pc) && Changes(s, pc, a, s')
    ensures Noted(log, s, pc, a, s') ==
      log.(found := if Tests(pc) then Some(s.ring) else log.found,
           took := if Taking(pc) == [] then log.took else log.took + Taking(pc),
           put := if Putting(pc) == [] then log.put else log.put + Putting(pc),
           refused := log.refused || Refuses(s.ring, pc),
           faulted := log.faulted || a.Fault?,
           signalled := log.signalled || a.Interrupt?,
           noMemory := log.noMemory || (a == Kmalloc(None) && !s.alloc))
  {
  }

  lemma IdleTold(s: State, t: Tid, a: Action, log: Log)
    requires t in s.threads && s.threads[t].Idle? && StepIdle(s, t, a).Some?
    ensures var s' := StepIdle(s, t, a).value;
      t in s'.threads && Told(Noted(log, s, s.threads[t], a, s'), s', s'.threads[t])
  {
  }

  lemma OpenTold(s: State, t: Tid, a: Action, flags: set<Flag>, o: OpenPoint, log: Log)
    requires StepOpen(s, t, a, flags, o).Some? && Told(log, s, Open(flags, o))
    requires Changes(s, Open(flags, o), a, StepOpen(s, t, a, flags, o).value)
    ensures var s' := StepOpen(s, t, a, flags, o).value;
      t in s'.threads && Told(Noted(log, s, Open(flags, o), a, s'), s', s'.threads[t])
  {
    hide Added, Removed, Grown;
  }

  lemma ReleaseTold(s: State, t: Tid, a: Action, h: Hid, c: ReleasePoint, log: Log)
    requires StepRelease(s, t, a, h, c).Some? && Told(log, s, Release(h, c))
    requires Changes(s, Release(h, c), a, StepRelease(s, t, a, h, c).value)
    ensures var s' := StepRelease(s, t, a, h, c).value;
      t in s'.threads && Told(Noted(log, s, Release(h, c), a, s'), s', s'.threads[t])
  {
    hide Added, Removed, Grown;
  }

  lemma ReadTestTold(s: State, t: Tid, a: Action, h: Hid, r: ReadPoint, log: Log)
    requires r.ReadHeld? && s.ring.Ok() && HeldRead(s, t, a, h, r).Some? && Told(log, s, Read(h, r))
    requires Changes(s, Read(h, r), a, HeldRead(s, t, a, h, r).value)
    ensures var s' := HeldRead(s, t, a, h, r).value;
      t in s'.threads && Told(Noted(log, s, Read(h, r), a, s'), s', s'.threads[t])
  {
    UseNoted(log, s, Read(h, r), a, HeldRead(s, t, a, h, r).value);
    hide Noted, Changes, Delivers, Ring.ReadCount;
  }

  lemma ReadCopyTold(s: State, t: Tid, a: Action, h: Hid, r: ReadPoint, log: Log)
    requires r.ReadCopy? && HeldRead(s, t, a, h, r).Some? && Told(log, s, Read(h, r)) && Knows(s, Read(h, r))
    requires Changes(s, Read(h, r), a, HeldRead(s, t, a, h, r).value)
    ensures var s' := HeldRead(s, t, a, h, r).value;
      t in s'.threads && Told(Noted(log, s, Read(h, r), a, s'), s', s'.threads[t])
  {
    UseNoted(log, s, Read(h, r), a, HeldRead(s, t, a, h, r).value);
    ReadDelivers(s.ring, log.call.value.count);
    hide Noted, Changes, Refuses, Delivers, Ring.ReadCount, Ring.Peek;
  }

  lemma ReadMoveTold(s: State, t: Tid, a: Action, h: Hid, r: ReadPoint, log: Log)
    requires r.ReadMove? && HeldRead(s, t, a, h, r).Some? && Told(log, s, Read(h, r))
    requires Changes(s, Read(h, r), a, HeldRead(s, t, a, h, r).value)
    ensures var s' := HeldRead(s, t, a, h, r).value;
      t in s'.threads && Told(Noted(log, s, Read(h, r), a, s'), s', s'.threads[t])
  {
    var s' := HeldRead(s, t, a, h, r).value;
    var log' := Noted(log, s, Read(h, r), a, s');
    UseNoted(log, s, Read(h, r), a, s');
    assert a.Go? && s'.handles == s.handles && s'.threads[t] == Read(h, ReadUp(r.bytes));
    hide HeldRead, Noted, Changes, Refuses, Delivers;
    assert log'.took == r.bytes && !log'.faulted && !log'.signalled;
    assert ReadTold(log', s', h, ReadUp(r.bytes));
  }

  lemma ReadUpTold(s: State, t: Tid, a: Action, h: Hid, r: ReadPoint, log: Log)
    requires r.ReadUp? && HeldRead(s, t, a, h, r).Some? && Told(log, s, Read(h, r))
    requires Changes(s, Read(h, r), a, HeldRead(s, t, a, h, r).value)
    ensures var s' := HeldRead(s, t, a, h, r).value;
      t in s'.threads && Told(Noted(log, s, Read(h, r), a, s'), s', s'.threads[t])
  {
    UseNoted(log, s, Read(h, r), a, HeldRead(s, t, a, h, r).value);
    assert a.Go?;
    hide Noted, Changes, Refuses, Delivers, Ring.ReadCount, Ring.Past, Ring.Peek;
  }

  lemma ReadDelivers(r: Ring, count: nat)
    requires r.Ok() && !r.Empty()
    ensures Delivers(r, count, r.ReadBytes(count))
  {
    ReadTakesPrefix(r, count);
  }

  lemma ReadLoopTold(s: State, t: Tid, a: Action, h: Hid, r: ReadPoint, log: Log)
    requires r.ReadDown? || r.ReadCheck? || r.ReadSleep?
    requires WaitRead(s, t, a, h, r).Some? && Told(log, s, Read(h, r))
    requires Changes(s, Read(h, r), a, WaitRead(s, t, a, h, r).value)
    ensures var s' := WaitRead(s, t, a, h, r).value;
      t in s'.threads && Told(Noted(log, s, Read(h, r), a, s'), s', s'.threads[t])
  {
    UseNoted(log, s, Read(h, r), a, WaitRead(s, t, a, h, r).value);
    hide Noted, Changes, Refuses, Delivers;
  }

  lemma ReadEndTold(s: State, t: Tid, a: Action, h: Hid, r: ReadPoint, log: Log)
    requires r.ReadFlags? || r.ReadWake?
    requires WaitRead(s, t, a, h, r).Some? && Told(log, s, Read(h, r))
    requires Changes(s, Read(h, r), a, WaitRead(s, t, a, h, r).value)
    ensures var s' := WaitRead(s, t, a, h, r).value;
      t in s'.threads && Told(Noted(log, s, Read(h, r), a, s'), s', s'.threads[t])
  {
    UseNoted(log, s, Read(h, r), a, WaitRead(s, t, a, h, r).value);
    hide Noted, Changes, Refuses, Delivers, CheckRead;
  }

  lemma WriteTestTold(s: State, t: Tid, a: Action, h: Hid, w: WritePoint, log: Log)
    requires w.WriteHeld? && s.ring.Ok() && HeldWrite(s, t, a, h, w).Some? && Told(log, s, Write(h, w))
    requires Changes(s, Write(h, w), a, HeldWrite(s, t, a, h, w).value)
    ensures var s' := HeldWrite(s, t, a, h, w).value;
      t in s'.threads && Told(Noted(log, s, Write(h, w), a, s'), s', s'.threads[t])
  {
    UseNoted(log, s, Write(h, w), a, HeldWrite(s, t, a, h, w).value);
    Accounting(s.ring);
    if s.ring.Free() != 0 { WriteAccepts(s.ring, w.data); }
    hide Noted, Changes, Accepts, Ring.Free, Ring.WriteCount, Ring.Contents;
  }

  lemma WriteCopyTold(s: State, t: Tid, a: Action, h: Hid, w: WritePoint, log: Log)
    requires w.WriteCopy? && HeldWrite(s, t, a, h, w).Some? && Told(log, s, Write(h, w))
    requires Changes(s, Write(h, w), a, HeldWrite(s, t, a, h, w).value)
    ensures var s' := HeldWrite(s, t, a, h, w).value;
      t in s'.threads && Told(Noted(log, s, Write(h, w), a, s'), s', s'.threads[t])
  {
    UseNoted(log, s, Write(h, w), a, HeldWrite(s, t, a, h, w).value);
    hide Noted, Changes, Accepts, Refuses, Ring.Free, Ring.WriteCount, Ring.Stored;
  }

  lemma WriteMoveTold(s: State, t: Tid, a: Action, h: Hid, w: WritePoint, log: Log)
    requires w.WriteMove? || w.WriteWrap? || w.WriteUp?
    requires HeldWrite(s, t, a, h, w).Some? && Told(log, s, Write(h, w))
    requires Changes(s, Write(h, w), a, HeldWrite(s, t, a, h, w).value)
    ensures var s' := HeldWrite(s, t, a, h, w).value;
      t in s'.threads && Told(Noted(log, s, Write(h, w), a, s'), s', s'.threads[t])
  {
    UseNoted(log, s, Write(h, w), a, HeldWrite(s, t, a, h, w).value);
    hide Noted, Changes, Accepts, Refuses, Ring.Free, Ring.WriteCount, Ring.Stored;
  }

  lemma WriteAccepts(r: Ring, data: seq<Byte>)
    requires r.Ok() && r.Free() != 0
    ensures Accepts(r, data, data[..r.WriteCount(|data|)])
  {
    WriteFits(r, |data|);
    Accounting(r);
  }

  lemma WriteLoopTold(s: State, t: Tid, a: Action, h: Hid, w: WritePoint, log: Log)
    requires w.WriteDown? || w.WriteCheck? || w.WriteSleep?
    requires WaitWrite(s, t, a, h, w).Some? && Told(log, s, Write(h, w))
    requires Changes(s, Write(h, w), a, WaitWrite(s, t, a, h, w).value)
    ensures var s' := WaitWrite(s, t, a, h, w).value;
      t in s'.threads && Told(Noted(log, s, Write(h, w), a, s'), s', s'.threads[t])
  {
    UseNoted(log, s, Write(h, w), a, WaitWrite(s, t, a, h, w).value);
    hide Noted, Changes, Accepts, Refuses, FindsFull;
  }

  lemma WriteEndTold(s: State, t: Tid, a: Action, h: Hid, w: WritePoint, log: Log)
    requires w.WriteFlags? || w.WriteWake?
    requires WaitWrite(s, t, a, h, w).Some? && Told(log, s, Write(h, w))
    requires Changes(s, Write(h, w), a, WaitWrite(s, t, a, h, w).value)
    ensures var s' := WaitWrite(s, t, a, h, w).value;
      t in s'.threads && Told(Noted(log, s, Write(h, w), a, s'), s', s'.threads[t])
  {
    UseNoted(log, s, Write(h, w), a, WaitWrite(s, t, a, h, w).value);
    hide Noted, Changes, Accepts, Refuses, CheckWrite;
  }

  lemma ReaderTold(s: State, t: Tid, a: Action, h: Hid, r: ReadPoint, log: Log)
    requires Step(s, t, a).Some? && s.threads[t] == Read(h, r) && Told(log, s, Read(h, r)) && Knows(s, Read(h, r))
    requires r.ReadHeld? ==> s.ring.Ok()
    ensures var s' := Step(s, t, a).value;
      t in s'.threads && Told(Noted(log, s, Read(h, r), a, s'), s', s'.threads[t])
  {
    StepChanges(s, t, a);
    hide StepIdle, StepOpen, StepRelease, HeldRead, WaitRead, HeldWrite, WaitWrite, Told, Noted, Changes, Knows;
    if r.ReadHeld? { ReadTestTold(s, t, a, h, r, log); }
    else if r.ReadCopy? { ReadCopyTold(s, t, a, h, r, log); }
    else if r.ReadMove? { ReadMoveTold(s, t, a, h, r, log); }
    else if r.ReadUp? { ReadUpTold(s, t, a, h, r, log); }
    else if r.ReadFlags? || r.ReadWake? { ReadEndTold(s, t, a, h, r, log); }
    else { ReadLoopTold(s, t, a, h, r, log); }
  }

  lemma WriterTold(s: State, t: Tid, a: Action, h: Hid, w: WritePoint, log: Log)
    requires Step(s, t, a).Some? && s.threads[t] == Write(h, w) && Told(log, s, Write(h, w))
    requires w.WriteHeld? ==> s.ring.Ok()
    ensures var s' := Step(s, t, a).value;
      t in s'.threads && Told(Noted(log, s, Write(h, w), a, s'), s', s'.threads[t])
  {
    StepChanges(s, t, a);
    hide StepIdle, StepOpen, StepRelease, HeldRead, WaitRead, HeldWrite, WaitWrite, Told, Noted, Changes;
    if w.WriteHeld? { WriteTestTold(s, t, a, h, w, log); }
    else if w.WriteCopy? { WriteCopyTold(s, t, a, h, w, log); }
    else if w.Inside() { WriteMoveTold(s, t, a, h, w, log); }
    else if w.WriteFlags? || w.WriteWake? { WriteEndTold(s, t, a, h, w, log); }
    else { WriteLoopTold(s, t, a, h, w, log); }
  }

  lemma MoverTold(s: State, t: Tid, a: Action, log: Log)
    requires Inv(s) && Step(s, t, a).Some? && Told(log, s, s.threads[t])
    ensures var s' := Step(s, t, a).value;
      t in s'.threads && Told(Noted(log, s, s.threads[t], a, s'), s', s'.threads[t])
  {
    StepChanges(s, t, a);
    assert Knows(s, s.threads[t]);
    if Tests(s.threads[t]) {
      assert t in Holders(s);
      HeldMeansZero(s, t);
      HeldMeansOk(s, t);
    }
    hide StepIdle, StepOpen, StepRelease, HeldRead, WaitRead, HeldWrite, WaitWrite, Told, Noted, Changes, Knows, Inv;
    match s.threads[t] {
      case Idle(_) => IdleTold(s, t, a, log);
      case Open(flags, o) => OpenTold(s, t, a, flags, o, log);
      case Read(h, r) => ReaderTold(s, t, a, h, r, log);
      case Write(h, w) => WriterTold(s, t, a, h, w, log);
      case Release(h, c) => ReleaseTold(s, t, a, h, c, log);
    }
  }

  // ----- the others' logs

  /** What another thread's log relies on stays. */
  lemma OthersTold(s: State, t: Tid, a: Action, u: Tid, log: Log)
    requires Inv(s) && Step(s, t, a).Some? && u in s.threads && u != t && Told(log, s, s.threads[u])
    ensures var s' := Step(s, t, a).value; u in s'.threads && Told(log, s', s'.threads[u])
  {
    hide Step;
    var s' := Step(s, t, a).value;
    StepKeepsInv(s, t, a);
    StepMoves(s, t, a);
    FlagsFixed(s, t, a);
    UsesOne(s', u);
    if Holding(s.threads[u]) {
      RingStays(s, t, a, u);
    }
    if s.threads[u].Idle? {
      LeakedStays(s, t, a, log);
    }
    hide Inv;
    WokenTold(s, s', s.threads[u], s'.threads[u], log);
  }

  lemma RingStays(s: State, t: Tid, a: Action, u: Tid)
    requires Inv(s) && Step(s, t, a).Some? && u in s.threads && u != t && Holding(s.threads[u])
    ensures Step(s, t, a).value.ring == s.ring
  {
    hide Step;
    StepNeedsThread(s, t, a);
    assert u in Holders(s);
    HeldMeansZero(s, u);
    if Holding(s.threads[t]) {
      assert t in Holders(s);
      OneHolder(s, t, u);
    }
    StepOutside(s, t, a);
  }

  lemma LeakedStays(s: State, t: Tid, a: Action, log: Log)
    requires Inv(s) && Step(s, t, a).Some?
    ensures var s' := Step(s, t, a).value;
      log.call.Some? && log.call.value.BeginRelease? && log.call.value.h in s.handles && s.handles[log.call.value.h].status.Leaked?
      ==> log.call.value.h in s'.handles && s'.handles[log.call.value.h].status.Leaked?
  {
    hide Step;
    if log.call.Some? && log.call.value.BeginRelease? && log.call.value.h in s.handles && s.handles[log.call.value.h].status.Leaked? {
      StepKeepsLeaked(s, t, a, log.call.value.h);
    }
  }

  lemma WokenTold(s: State, s': State, pc: Pc, pc': Pc, log: Log)
    requires Told(log, s, pc) && (pc' == pc || pc' == WakeReader(pc) || pc' == WakeWriter(pc))
    requires UseOk(s', pc') && SameFlags(s, s') && (Holding(pc) ==> s'.ring == s.ring)
    requires pc.Idle? && log.call.Some? && log.call.value.BeginRelease?
      && log.call.value.h in s.handles && s.handles[log.call.value.h].status.Leaked?
      ==> log.call.value.h in s'.handles && s'.handles[log.call.value.h].status.Leaked?
    ensures Told(log, s', pc')
  {
    hide Delivers, Accepts;
  }

  lemma {:induction false} AllTold(size: nat, tids: set<Tid>, trace: seq<(Tid, Action)>, s: State, t: Tid)
    requires size > 0 && Exec(Init(size, tids), trace) == Some(s) && t in s.threads
    ensures Told(LogOf(Init(size, tids), trace, t), s, s.threads[t])
  {
    hide Told, Noted, Step, Inv;
    if trace == [] {
      NothingTold(s);
    } else {
      var last := |trace| - 1;
      var m := Exec(Init(size, tids), trace[..last]).value;
      var (u, a) := trace[last];
      InitInv(size, tids);
      ExecKeepsInv(Init(size, tids), trace[..last]);
      StepNeedsThread(m, u, a);
      StepMoves(m, u, a);
      AllTold(size, tids, trace[..last], m, t);
      if u == t {
        MoverTold(m, t, a, LogOf(Init(size, tids), trace[..last], t));
      } else {
        OthersTold(m, u, a, t, LogOf(Init(size, tids), trace[..last], t));
      }
    }
  }

  lemma NothingTold(s: State)
    ensures Told(NoCall, s, Idle(Nothing))
  {
  }

  // ----- what the calls return

  /** In every run, a read that has ended returned -EAGAIN exactly if it found the ring empty under
      the semaphore and the flags of its handle are O_NONBLOCK alone, -EFAULT exactly if its copy
      faulted, -ERESTARTSYS exactly if a signal reached it; then it has taken nothing. Otherwise it
      returned the bytes it has taken: those at the head of the queue it found, at least one if any
      were asked for, and all that were unless the queue or the buffer ended before. */
  lemma ReadReturns(size: nat, tids: set<Tid>, trace: seq<(Tid, Action)>, s: State, t: Tid, h: Hid, count: nat)
    requires size > 0 && Exec(Init(size, tids), trace) == Some(s) && t in s.threads && s.threads[t].Idle?
    requires LogOf(Init(size, tids), trace, t).call == Some(BeginRead(h, count))
    ensures var log, ret := LogOf(Init(size, tids), trace, t), s.threads[t].ret;
      && (ret == Failed(EAGAIN) <==> log.refused && log.flags == {NonBlock})
      && (ret == Failed(EFAULT) <==> log.faulted)
      && (ret == Failed(ERESTARTSYS) <==> log.signalled)
      && ret in {Got(log.took), Failed(EAGAIN), Failed(EFAULT), Failed(ERESTARTSYS)}
      && (if ret.Got? then log.found.Some? && Delivers(log.found.value, count, log.took) else log.took == [])
      && log.put == []
  {
    hide Exec, LogOf;
    AllTold(size, tids, trace, s, t);
  }

  /** And a write -EAGAIN exactly if it found the ring full and O_NONBLOCK is among the flags; unless
      it failed, the number of bytes it has put on the queue, which are the head of its data: at least
      one if there were any, and all unless the free space or the buffer ended before. */
  lemma WriteReturns(size: nat, tids: set<Tid>, trace: seq<(Tid, Action)>, s: State, t: Tid, h: Hid, data: seq<Byte>)
    requires size > 0 && Exec(Init(size, tids), trace) == Some(s) && t in s.threads && s.threads[t].Idle?
    requires LogOf(Init(size, tids), trace, t).call == Some(BeginWrite(h, data))
    ensures var log, ret := LogOf(Init(size, tids), trace, t), s.threads[t].ret;
      && (ret == Failed(EAGAIN) <==> log.refused && NonBlock in log.flags)
      && (ret == Failed(EFAULT) <==> log.faulted)
      && (ret == Failed(ERESTARTSYS) <==> log.signalled)
      && ret in {Put(|log.put|), Failed(EAGAIN), Failed(EFAULT), Failed(ERESTARTSYS)}
      && (if ret.Put? then log.found.Some? && Accepts(log.found.value, data, log.put) else log.put == [])
      && log.took == []
  {
    hide Exec, LogOf;
    AllTold(size, tids, trace, s, t);
  }

  /** The `&` test of write: a writer whose handle has O_NONBLOCK never waits; if it found the ring
      full, its call fails with -EAGAIN and has put nothing on the queue. */
  lemma NonBlockWriterNeverSleeps(size: nat, tids: set<Tid>, trace: seq<(Tid, Action)>, s: State, t: Tid)
    requires size > 0 && Exec(Init(size, tids), trace) == Some(s) && t in s.threads
    ensures WriteWaits(s.threads[t]) ==>
      s.threads[t].h in s.handles && NonBlock !in s.handles[s.threads[t].h].flags
    ensures var log, pc := LogOf(Init(size, tids), trace, t), s.threads[t];
      log.call.Some? && log.call.value.BeginWrite? && NonBlock in log.flags && log.refused ==>
        && log.put == []
        && (pc.Idle? ==> pc.ret == Failed(EAGAIN))
        && (!pc.Idle? ==> pc.Write? && pc.w.WriteFlags?)
  {
    assert Reachable(s);
    ReachableInv(s);
    assert MayWait(s, s.threads[t]);
    hide Exec, LogOf, Inv;
    AllTold(size, tids, trace, s, t);
  }

  /** An open has added one live handle with its flags, or else none: -ENOMEM exactly if there was no
      buffer and no memory for one, -ERESTARTSYS exactly if a signal ended its wait. */
  lemma OpenReturns(size: nat, tids: set<Tid>, trace: seq<(Tid, Action)>, s: State, t: Tid, flags: set<Flag>)
    requires size > 0 && Exec(Init(size, tids), trace) == Some(s) && t in s.threads && s.threads[t].Idle?
    requires LogOf(Init(size, tids), trace, t).call == Some(BeginOpen(flags))
    ensures var log, ret := LogOf(Init(size, tids), trace, t), s.threads[t].ret;
      && (ret == Failed(ENOMEM) <==> log.noMemory)
      && (ret == Failed(ERESTARTSYS) <==> log.signalled)
      && ret in {Done, Failed(ENOMEM), Failed(ERESTARTSYS)}
      && (if ret.Done? then exists h :: h in log.added && log.added == map[h := Handle(flags, Live)] else log.added == map[])
      && log.removed == {} && log.took == log.put == []
  {
    hide Exec, LogOf;
    AllTold(size, tids, trace, s, t);
  }

  /** A release has removed its handle, or, interrupted, left it leaked. */
  lemma ReleaseReturns(size: nat, tids: set<Tid>, trace: seq<(Tid, Action)>, s: State, t: Tid, h: Hid)
    requires size > 0 && Exec(Init(size, tids), trace) == Some(s) && t in s.threads && s.threads[t].Idle?
    requires LogOf(Init(size, tids), trace, t).call == Some(BeginRelease(h))
    ensures var log, ret := LogOf(Init(size, tids), trace, t), s.threads[t].ret;
      && ret == (if log.signalled then Failed(ERESTARTSYS) else Done)
      && (if ret.Done? then log.removed == {h}
          else log.removed == {} && h in s.handles && s.handles[h].status.Leaked?)
      && log.added == map[] && log.took == log.put == []
  {
    hide Exec, LogOf;
    AllTold(size, tids, trace, s, t);
  }
}
