/** The blocking pipe device as a system of threads.

    Every thread walks through open, read, write and release one atomic step at a time; any
    number of threads interleave freely. Inside the critical section too, the tests, the user copy
    and the pointer update are separate steps, and no step looks at who else is inside: that nobody
    is comes from the semaphore alone. Loads of `rp` and `wp` made without the semaphore are
    separate steps, and `wp` may be seen resting on `end` in the middle of a write. */
module PipeProtocol {
  import opened Kernel
  import opened Ring

  type Tid = nat
  type Hid = nat

  /** Bits of `f_flags`; O_RDONLY is no bit at all. */
  datatype Flag = NonBlock | WrOnly | RdWr | Append | LargeFile

  datatype Status =
    | Live
    | Closing  // its last reference is gone, release is running
    | Leaked   // its release was interrupted before the decrement

  /** An open file, from the moment its open was counted. */
  datatype Handle = Handle(flags: set<Flag>, status: Status)
  {
    /** FMODE_READ and FMODE_WRITE as the kernel derives them from the access bits: none set is
        reading, both set is neither. */
    predicate Reads() { WrOnly !in flags }
    predicate Writes() { (WrOnly in flags) != (RdWr in flags) }
    predicate HasMode() { Reads() || Writes() }
  }

  datatype Ret = Nothing | Got(bytes: seq<Byte>) | Put(n: nat) | Done | Failed(e: Errno)

  /** Where a thread is: between calls, or at some point of a call on a handle. */
  datatype Pc =
    | Idle(ret: Ret)
    | Open(flags: set<Flag>, o: OpenPoint)
    | Read(h: Hid, r: ReadPoint)
    | Write(h: Hid, w: WritePoint)
    | Release(h: Hid, c: ReleasePoint)

  datatype OpenPoint =
    | OpenDown
    | OpenHeld
    | OpenCount              // the buffer is there, the handle is not counted yet
    | OpenUp

  datatype ReadPoint =
    | ReadDown(count: nat)
    | ReadHeld(count: nat)
    | ReadFlags(count: nat)
    // evaluating `rp != wp` without the lock, before (not queued) or after prepare_to_wait
    | ReadCheck(count: nat, queued: bool, woken: bool, r1: Option<nat>, w1: Option<nat>)
    | ReadSleep(count: nat, woken: bool)
    | ReadCopy(n: nat)       // the count is clamped
    | ReadMove(bytes: seq<Byte>)
    | ReadUp(bytes: seq<Byte>)
    | ReadWake(bytes: seq<Byte>)
  {
    /** Inside the critical section. */
    predicate Inside() { ReadHeld? || ReadCopy? || ReadMove? || ReadUp? }
  }

  datatype WritePoint =
    | WriteDown(data: seq<Byte>)
    | WriteHeld(data: seq<Byte>)
    | WriteFlags(data: seq<Byte>)
    // evaluating `spacefree` without the lock: it mentions each pointer twice
    | WriteCheck(data: seq<Byte>, woken: bool,
                 r1: Option<nat>, w1: Option<nat>, r2: Option<nat>, w2: Option<nat>)
    | WriteSleep(data: seq<Byte>, woken: bool)
    | WriteCopy(bytes: seq<Byte>)   // what the clamp left of the data
    | WriteMove(bytes: seq<Byte>)
    | WriteWrap(n: nat)
    | WriteUp(n: nat)
    | WriteWake(n: nat)
  {
    predicate Inside() { WriteHeld? || WriteCopy? || WriteMove? || WriteWrap? || WriteUp? }
  }

  datatype ReleasePoint =
    | ReleaseDown
    | ReleaseHeld
    | ReleaseFree            // counted down, about to test the counters
    | ReleaseUp

  datatype Load = R1 | W1 | R2 | W2

  datatype Action =
    | BeginOpen(flags: set<Flag>)
    | BeginRead(h: Hid, count: nat)
    | BeginWrite(h: Hid, data: seq<Byte>)
    | BeginRelease(h: Hid)
    | Down                                             // the semaphore is granted
    | Interrupt                                        // a signal ends the wait
    | Kmalloc(room: Option<seq<Byte>>)                 // the allocator's answer to open
    | Counted(h: Hid)                                  // open counts its file, henceforth `h`
    | Fault(garbage: seq<Byte>)                        // the user copy fails part-way
    | See(load: Load)                                  // one unlocked load
    | Go                                               // the only thing the code can do next

  datatype State = State(
    ring: Ring,
    alloc: bool,            // dev->buffer is not NULL
    sem: nat,
    nreaders: int,
    nwriters: int,
    handles: map<Hid, Handle>,
    threads: map<Tid, Pc>,
    written: seq<Byte>,     // accepted by writes since the buffer was allocated, in the order `wp` moved
    consumed: seq<Byte>,    // delivered by reads since then, in the order `rp` moved
    wild: bool)             // some user copy has touched memory outside the allocated buffer

  function Init(size: nat, tids: set<Tid>): State
    requires size > 0
  {
    State(Ring(seq(size, _ => 0), 0, 0), false, 1, 0, 0, map[],
          map t | t in tids :: Idle(Nothing), [], [], false)
  }

  function At(s: State, t: Tid, pc: Pc): State { s.(threads := s.threads[t := pc]) }

  /** Leave the critical section for `pc`. */
  function UpTo(s: State, t: Tid, pc: Pc): State { At(s, t, pc).(sem := s.sem + 1) }

  function Fail(s: State, t: Tid, e: Errno): State { At(s, t, Idle(Failed(e))) }

  /** wake_up_interruptible on `inq`: every queued reader becomes runnable. */
  function WakeReader(pc: Pc): Pc {
    match pc
    case Read(h, ReadCheck(count, true, _, r1, w1)) => Read(h, ReadCheck(count, true, true, r1, w1))
    case Read(h, ReadSleep(count, _)) => Read(h, ReadSleep(count, true))
    case _ => pc
  }

  /** wake_up_interruptible on `outq`. */
  function WakeWriter(pc: Pc): Pc {
    match pc
    case Write(h, WriteCheck(data, _, r1, w1, r2, w2)) => Write(h, WriteCheck(data, true, r1, w1, r2, w2))
    case Write(h, WriteSleep(data, _)) => Write(h, WriteSleep(data, true))
    case _ => pc
  }

  function WakeReaders(s: State): State {
    s.(threads := map u | u in s.threads :: WakeReader(s.threads[u]))
  }

  function WakeWriters(s: State): State {
    s.(threads := map u | u in s.threads :: WakeWriter(s.threads[u]))
  }

  /** A read or write on `h` is in progress. */
  predicate Busy(s: State, h: Hid) {
    exists t :: t in s.threads && On(s.threads[t], h)
  }

  predicate On(pc: Pc, h: Hid) { (pc.Read? || pc.Write?) && pc.h == h }

  /** A system call is entered. The kernel hands read and write only live handles of the right
      mode, and calls release only after the last call on the handle has returned. */
  function StepIdle(s: State, t: Tid, a: Action): Option<State> {
    match a
    case BeginOpen(flags) => Some(At(s, t, Open(flags, OpenDown)))
    case BeginRead(h, count) =>
      if h in s.handles && s.handles[h].status.Live? && s.handles[h].Reads()
      then Some(At(s, t, Read(h, ReadDown(count)))) else None
    case BeginWrite(h, data) =>
      if h in s.handles && s.handles[h].status.Live? && s.handles[h].Writes()
      then Some(At(s, t, Write(h, WriteDown(data)))) else None
    case BeginRelease(h) =>
      if h in s.handles && s.handles[h].status.Live? && !Busy(s, h)
      then Some(At(s, t, Release(h, ReleaseDown)).(handles := s.handles[h := s.handles[h].(status := Closing)]))
      else None
    case _ => None
  }

  /** down_interruptible: granted, or interrupted while it waits; a free semaphore is taken at once. */
  function StepDown(s: State, t: Tid, a: Action, held: Pc): Option<State> {
    match a
    case Down => if s.sem > 0 then Some(At(s, t, held).(sem := s.sem - 1)) else None
    case Interrupt => if s.sem == 0 then Some(Fail(s, t, ERESTARTSYS)) else None
    case _ => None
  }

  function StepOpen(s: State, t: Tid, a: Action, flags: set<Flag>, o: OpenPoint): Option<State> {
    match o
    case OpenDown => StepDown(s, t, a, Open(flags, OpenHeld))
    case OpenHeld =>
      if !a.Kmalloc? then None
      else if s.alloc then Some(At(s, t, Open(flags, OpenCount)))
      else if a.room.None? then Some(UpTo(s, t, Idle(Failed(ENOMEM))))
      else if |a.room.value| != |s.ring.buf| then None
      else Some(At(s, t, Open(flags, OpenCount)).(
                alloc := true, ring := Ring(a.room.value, 0, 0), written := [], consumed := []))
    case OpenCount =>
      if !a.Counted? || a.h in s.handles then None
      else
        var x := Handle(flags, Live);
        Some(At(s, t, Open(flags, OpenUp)).(
             nreaders := s.nreaders + (if x.Reads() then 1 else 0),
             nwriters := s.nwriters + (if x.Writes() then 1 else 0),
             handles := s.handles[a.h := x]))
    case OpenUp => if a.Go? then Some(UpTo(s, t, Idle(Done))) else None
  }

  /** A user copy of `n` bytes at offset `p` of the buffer: recorded if it leaves the buffer. */
  function Touch(s: State, p: nat, n: nat): State {
    s.(wild := s.wild || !s.alloc || p + n > |s.ring.buf|)
  }

  /** Read, holding the semaphore: back out of an empty ring; or clamp, copy, move `rp`, `up`. */
  function HeldRead(s: State, t: Tid, a: Action, h: Hid, r: ReadPoint): Option<State> {
    match r
    case ReadHeld(count) =>
      if !a.Go? then None
      else if s.ring.Empty() then Some(UpTo(s, t, Read(h, ReadFlags(count))))
      else Some(At(s, t, Read(h, ReadCopy(s.ring.ReadCount(count)))))
    case ReadCopy(n) =>
      if a.Fault? then Some(UpTo(Touch(s, s.ring.rp, n), t, Idle(Failed(EFAULT))))
      else if a.Go? then Some(At(Touch(s, s.ring.rp, n), t, Read(h, ReadMove(s.ring.Peek(n)))))
      else None
    case ReadMove(bytes) =>
      if !a.Go? then None
      else Some(At(s, t, Read(h, ReadUp(bytes))).(
                ring := s.ring.Past(|bytes|), consumed := s.consumed + bytes))
    case ReadUp(bytes) => if a.Go? then Some(UpTo(s, t, Read(h, ReadWake(bytes)))) else None
    case _ => None
  }

  /** One step of evaluating the wait condition of read: a load, or the verdict. */
  function CheckRead(ring: Ring, a: Action, r: ReadPoint): (next: Option<ReadPoint>)
    requires r.ReadCheck?
    ensures next.Some? ==> next.value.ReadDown? || next.value.ReadCheck? || next.value.ReadSleep?
  {
    if a.See? then
      match a.load
      case R1 => Some(r.(r1 := Some(ring.rp)))
      case W1 => Some(r.(w1 := Some(ring.wp)))
      case _ => None
    else if !a.Go? || r.r1.None? || r.w1.None? then None
    else if r.r1 != r.w1 then Some(ReadDown(r.count))
    else if !r.queued then Some(ReadCheck(r.count, true, false, None, None))
    else Some(ReadSleep(r.count, r.woken))
  }

  /** Read, without the semaphore: getting it, the wait loop, and the wake of the writers. */
  function WaitRead(s: State, t: Tid, a: Action, h: Hid, r: ReadPoint): Option<State> {
    match r
    case ReadDown(count) => StepDown(s, t, a, Read(h, ReadHeld(count)))
    case ReadFlags(count) =>
      if !a.Go? || h !in s.handles then None
      else if s.handles[h].flags == {NonBlock} then Some(Fail(s, t, EAGAIN))
      else Some(At(s, t, Read(h, ReadCheck(count, false, false, None, None))))
    case ReadCheck(count, queued, woken, r1, w1) =>
      var next := CheckRead(s.ring, a, r);
      if next.None? then None else Some(At(s, t, Read(h, next.value)))
    case ReadSleep(count, woken) =>
      if a.Interrupt? then Some(Fail(s, t, ERESTARTSYS))
      else if a.Go? && woken then Some(At(s, t, Read(h, ReadCheck(count, true, false, None, None))))
      else None
    case ReadWake(bytes) =>
      if a.Go? then Some(WakeWriters(At(s, t, Idle(Got(bytes))))) else None
    case _ => None
  }

  /** `!spacefree(dev)`, on the pointer values of its second pair of loads. */
  predicate SeenFull(size: nat, rp: nat, wp: nat) { Rem(rp + size - wp, size) - 1 == 0 }

  /** Write, holding the semaphore: back out of a full ring; or clamp, copy, move `wp`, wrap it, `up`. */
  function HeldWrite(s: State, t: Tid, a: Action, h: Hid, w: WritePoint): Option<State> {
    match w
    case WriteHeld(data) =>
      if !a.Go? then None
      else if s.ring.Free() == 0 then Some(UpTo(s, t, Write(h, WriteFlags(data))))
      else Some(At(s, t, Write(h, WriteCopy(data[..s.ring.WriteCount(|data|)]))))
    case WriteCopy(bytes) =>
      if a.Fault? && |a.garbage| <= |bytes| then
        Some(UpTo(Touch(s, s.ring.wp, |a.garbage|), t, Idle(Failed(EFAULT))).(ring := s.ring.Stored(a.garbage)))
      else if a.Go? then
        Some(At(Touch(s, s.ring.wp, |bytes|), t, Write(h, WriteMove(bytes))).(ring := s.ring.Stored(bytes)))
      else None
    case WriteMove(bytes) =>
      if !a.Go? then None
      else Some(At(s, t, Write(h, WriteWrap(|bytes|))).(
                ring := s.ring.(wp := s.ring.wp + |bytes|), written := s.written + bytes))
    case WriteWrap(n) => if a.Go? then Some(At(s, t, Write(h, WriteUp(n))).(ring := s.ring.Wrapped())) else None
    case WriteUp(n) => if a.Go? then Some(UpTo(s, t, Write(h, WriteWake(n)))) else None
    case _ => None
  }

  /** Enough loads of `spacefree` are done to decide it. */
  predicate Loaded(w: WritePoint)
    requires w.WriteCheck?
  {
    w.r1.Some? && w.w1.Some? && (w.r1 == w.w1 || (w.r2.Some? && w.w2.Some?))
  }

  predicate FindsFull(ring: Ring, w: WritePoint)
    requires w.WriteCheck? && Loaded(w)
  {
    if w.r1 == w.w1 then |ring.buf| - 1 == 0 else SeenFull(|ring.buf|, w.r2.value, w.w2.value)
  }

  /** One step of evaluating `spacefree` in the wait loop of write: a load, or the verdict. */
  function CheckWrite(ring: Ring, a: Action, w: WritePoint): (next: Option<WritePoint>)
    requires w.WriteCheck?
    ensures next.Some? ==> next.value.WriteDown? || next.value.WriteCheck? || next.value.WriteSleep?
  {
    if a.See? then
      match a.load
      case R1 => Some(w.(r1 := Some(ring.rp)))
      case W1 => Some(w.(w1 := Some(ring.wp)))
      case R2 => Some(w.(r2 := Some(ring.rp)))
      case W2 => Some(w.(w2 := Some(ring.wp)))
    else if !a.Go? || !Loaded(w) then None
    else if FindsFull(ring, w) then Some(WriteSleep(w.data, w.woken))
    else Some(WriteDown(w.data))
  }

  /** Write, without the semaphore. */
  function WaitWrite(s: State, t: Tid, a: Action, h: Hid, w: WritePoint): Option<State> {
    match w
    case WriteDown(data) => StepDown(s, t, a, Write(h, WriteHeld(data)))
    case WriteFlags(data) =>
      if !a.Go? || h !in s.handles then None
      else if NonBlock in s.handles[h].flags then Some(Fail(s, t, EAGAIN))
      else Some(At(s, t, Write(h, WriteCheck(data, false, None, None, None, None))))
    case WriteCheck(data, woken, r1, w1, r2, w2) =>
      if a.Interrupt? then   // signal_pending, without having slept
        if Loaded(w) && !FindsFull(s.ring, w) then Some(Fail(s, t, ERESTARTSYS)) else None
      else
        var next := CheckWrite(s.ring, a, w);
        if next.None? then None else Some(At(s, t, Write(h, next.value)))
    case WriteSleep(data, woken) =>
      if a.Interrupt? then Some(Fail(s, t, ERESTARTSYS))
      else if a.Go? && woken then Some(At(s, t, Write(h, WriteDown(data))))
      else None
    case WriteWake(n) =>
      if a.Go? then Some(WakeReaders(At(s, t, Idle(Put(n))))) else None
    case _ => None
  }

  function StepRelease(s: State, t: Tid, a: Action, h: Hid, c: ReleasePoint): Option<State> {
    match c
    case ReleaseDown =>
      if h !in s.handles then None
      else if a.Interrupt? && s.sem == 0 then
        Some(Fail(s, t, ERESTARTSYS).(handles := s.handles[h := s.handles[h].(status := Leaked)]))
      else if a.Down? then StepDown(s, t, a, Release(h, ReleaseHeld))
      else None
    case ReleaseHeld =>
      if !a.Go? || h !in s.handles then None
      else
        Some(At(s, t, Release(h, ReleaseFree)).(
             nreaders := s.nreaders - (if s.handles[h].Reads() then 1 else 0),
             nwriters := s.nwriters - (if s.handles[h].Writes() then 1 else 0),
             handles := s.handles - {h}))
    case ReleaseFree =>
      if !a.Go? then None
      else Some(At(s, t, Release(h, ReleaseUp)).(alloc := s.alloc && s.nreaders + s.nwriters != 0))
    case ReleaseUp => if a.Go? then Some(UpTo(s, t, Idle(Done))) else None
  }

  /** One step of thread `t`; None when the action is not what the thread can do now. */
  function Step(s: State, t: Tid, a: Action): Option<State> {
    if t !in s.threads then None
    else
      match s.threads[t]
      case Idle(_) => StepIdle(s, t, a)
      case Open(flags, o) => StepOpen(s, t, a, flags, o)
      case Read(h, r) => if r.Inside() then HeldRead(s, t, a, h, r) else WaitRead(s, t, a, h, r)
      case Write(h, w) => if w.Inside() then HeldWrite(s, t, a, h, w) else WaitWrite(s, t, a, h, w)
      case Release(h, c) => StepRelease(s, t, a, h, c)
  }

  /** The state after a whole interleaving, if every step of it was possible. */
  function Exec(s: State, trace: seq<(Tid, Action)>): Option<State> {
    if trace == [] then Some(s)
    else
      var last := |trace| - 1;
      match Exec(s, trace[..last])
      case None => None
      case Some(m) => Step(m, trace[last].0, trace[last].1)
  }

  /** `s` can be reached from the freshly initialised device by some interleaving. */
  ghost predicate Reachable(s: State) {
    exists size: nat, tids: set<Tid>, trace: seq<(Tid, Action)> ::
      size > 0 && Exec(Init(size, tids), trace) == Some(s)
  }
}
