/** The blocking uid-owned device as a system of threads: a spinlock, a wait queue, and an
    availability test that is also evaluated without the lock, one load at a time. */
module BlockingUidDevice {
  import opened Kernel
  import opened UidDevice

  type Tid = nat

  datatype Ret = Nothing | Done | Failed(e: Errno)

  datatype Pc =
    | Idle(ret: Ret)
    | OpenLock(c: Cred, nonblock: bool)
    | OpenHeld(c: Cred, nonblock: bool)
    | OpenFlags(c: Cred, nonblock: bool)
    // scull_w_available() without the lock: the count, then the owner twice, in that order
    | Check(c: Cred, nonblock: bool, queued: bool, woken: bool,
            n: Option<int>, o1: Option<Uid>, o2: Option<Uid>)
    | Sleep(c: Cred, nonblock: bool, woken: bool)
    | OpenClaim(c: Cred)              // about to set the owner if nobody has it
    | OpenCount(c: Cred)              // about to count itself
    | OpenUnlock
    | ReleaseLock(h: Hid)
    | ReleaseHeld(h: Hid)
    | ReleaseOwner(last: bool)        // counted down, about to clear the owner
    | ReleaseUnlock(last: bool)
    | ReleaseWake(last: bool)

  datatype Action =
    | BeginOpen(c: Cred, nonblock: bool)
    | BeginRelease(h: Hid)
    | Interrupt
    | See
    | Go

  datatype State = State(
    holder: Option<Tid>,        // who has scull_w_lock
    count: int,
    owner: Uid,
    handles: map<Hid, Cred>,    // open handles and their openers
    threads: map<Tid, Pc>)

  function Init(tids: set<Tid>): State {
    State(None, 0, 0, map[], map t | t in tids :: Idle(Nothing))
  }

  function At(s: State, t: Tid, pc: Pc): State { s.(threads := s.threads[t := pc]) }

  function LockTo(s: State, t: Tid, pc: Pc): Option<State> {
    if s.holder.None? then Some(At(s, t, pc).(holder := Some(t))) else None
  }

  function UnlockTo(s: State, t: Tid, pc: Pc): State { At(s, t, pc).(holder := None) }

  function Wake(pc: Pc): Pc {
    match pc
    case Check(c, nonblock, true, _, n, o1, o2) => Check(c, nonblock, true, true, n, o1, o2)
    case Sleep(c, nonblock, _) => Sleep(c, nonblock, true)
    case _ => pc
  }

  function WakeAll(s: State): State { s.(threads := map u | u in s.threads :: Wake(s.threads[u])) }

  predicate Available(s: State, c: Cred) { s.count == 0 || Authorised(s.owner, c) }

  /** The next unlocked load, if the test is not decided yet. */
  function SeeNext(s: State, pc: Pc): Option<Pc>
    requires pc.Check?
  {
    if pc.n.None? then Some(pc.(n := Some(s.count)))
    else if pc.n == Some(0) then None
    else if pc.o1.None? then Some(pc.(o1 := Some(s.owner)))
    else if pc.o1 == Some(pc.c.uid) then None
    else if pc.o2.None? then Some(pc.(o2 := Some(s.owner)))
    else None
  }

  /** The outcome of the unlocked test: None while loads are missing. */
  function Verdict(pc: Pc): Option<bool>
    requires pc.Check?
  {
    if pc.n.None? then None
    else if pc.n == Some(0) then Some(true)
    else if pc.o1.None? then None
    else if pc.o1 == Some(pc.c.uid) then Some(true)
    else if pc.o2.None? then None
    else Some(pc.o2 == Some(pc.c.euid) || pc.c.override)
  }

  predicate Closing(s: State, h: Hid) {
    exists t :: t in s.threads && Releasing(s.threads[t]) == Some(h)
  }

  /** The handle a thread is releasing, until it has counted down. */
  function Releasing(pc: Pc): Option<Hid> {
    if pc.ReleaseLock? || pc.ReleaseHeld? then Some(pc.h) else None
  }

  function StepOpen(s: State, t: Tid, a: Action): Option<State>
    requires t in s.threads
  {
    match s.threads[t]
    case OpenLock(c, nonblock) => if a.Go? then LockTo(s, t, OpenHeld(c, nonblock)) else None
    case OpenHeld(c, nonblock) =>
      if !a.Go? then None
      else if Available(s, c) then Some(At(s, t, OpenClaim(c)))
      else Some(UnlockTo(s, t, OpenFlags(c, nonblock)))
    case OpenFlags(c, nonblock) =>
      if !a.Go? then None
      else if nonblock then Some(At(s, t, Idle(Failed(EAGAIN))))
      else Some(At(s, t, Check(c, nonblock, false, false, None, None, None)))
    case Check(c, nonblock, queued, woken, n, o1, o2) =>
      var pc := s.threads[t];
      if a.See? then
        if SeeNext(s, pc).Some? then Some(At(s, t, SeeNext(s, pc).value)) else None
      else if !a.Go? || Verdict(pc).None? then None
      else if Verdict(pc).value then Some(At(s, t, OpenLock(c, nonblock)))
      else if !queued then Some(At(s, t, Check(c, nonblock, true, false, None, None, None)))
      else Some(At(s, t, Sleep(c, nonblock, woken)))
    case Sleep(c, nonblock, woken) =>
      if a.Interrupt? then Some(At(s, t, Idle(Failed(ERESTARTSYS))))
      else if a.Go? && woken then Some(At(s, t, Check(c, nonblock, true, false, None, None, None)))
      else None
    case OpenClaim(c) =>
      if !a.Go? then None
      else Some(At(s, t, OpenCount(c)).(owner := if s.count == 0 then c.uid else s.owner))
    case OpenCount(c) =>
      if !a.Go? then None
      else
        var h := Unused(s.handles.Keys, 0);
        Some(At(s, t, OpenUnlock).(count := s.count + 1, handles := s.handles[h := c]))
    case OpenUnlock => if a.Go? then Some(UnlockTo(s, t, Idle(Done))) else None
    case _ => None
  }

  function StepRelease(s: State, t: Tid, a: Action): Option<State>
    requires t in s.threads
  {
    if !a.Go? then None
    else
      match s.threads[t]
      case ReleaseLock(h) => LockTo(s, t, ReleaseHeld(h))
      case ReleaseHeld(h) =>
        Some(At(s, t, ReleaseOwner(s.count - 1 == 0)).(count := s.count - 1, handles := s.handles - {h}))
      case ReleaseOwner(last) =>
        Some(At(s, t, ReleaseUnlock(last)).(owner := if last then 0 else s.owner))
      case ReleaseUnlock(last) => Some(UnlockTo(s, t, ReleaseWake(last)))
      case ReleaseWake(last) =>
        var s' := At(s, t, Idle(Done));
        Some(if last then WakeAll(s') else s')
      case _ => None
  }

  function StepIdle(s: State, t: Tid, a: Action): Option<State> {
    match a
    case BeginOpen(c, nonblock) => Some(At(s, t, OpenLock(c, nonblock)))
    case BeginRelease(h) =>
      if h in s.handles && !Closing(s, h) then Some(At(s, t, ReleaseLock(h))) else None
    case _ => None
  }

  predicate IsRelease(pc: Pc) {
    pc.ReleaseLock? || pc.ReleaseHeld? || pc.ReleaseOwner? || pc.ReleaseUnlock? || pc.ReleaseWake?
  }

  function Step(s: State, t: Tid, a: Action): Option<State> {
    if t !in s.threads then None
    else if s.threads[t].Idle? then StepIdle(s, t, a)
    else if IsRelease(s.threads[t]) then StepRelease(s, t, a)
    else StepOpen(s, t, a)
  }

  function Exec(s: State, trace: seq<(Tid, Action)>): Option<State> {
    if trace == [] then Some(s)
    else
      var last := |trace| - 1;
      match Exec(s, trace[..last])
      case None => None
      case Some(m) => Step(m, trace[last].0, trace[last].1)
  }

  // ----- the invariant

  predicate Holding(pc: Pc) {
    || pc.OpenHeld? || pc.OpenClaim? || pc.OpenCount? || pc.OpenUnlock?
    || pc.ReleaseHeld? || pc.ReleaseOwner? || pc.ReleaseUnlock?
  }

  predicate Lock(s: State) {
    forall t :: t in s.threads ==> (Holding(s.threads[t]) <==> s.holder == Some(t))
  }

  /** What a thread at this point has established. */
  predicate Knows(s: State, pc: Pc) {
    match pc
    case OpenClaim(c) => Available(s, c)
    case OpenCount(c) => Authorised(s.owner, c) && (s.count == 0 ==> s.owner == c.uid)
    case ReleaseOwner(last) => last <==> s.count == 0
    case ReleaseLock(h) => h in s.handles
    case ReleaseHeld(h) => h in s.handles
    case Check(_, nonblock, _, _, _, _, _) => !nonblock
    case Sleep(_, nonblock, _) => !nonblock
    case _ => true
  }

  predicate Known(s: State) {
    && (forall t :: t in s.threads ==> Knows(s, s.threads[t]))
    && (forall t, u :: t in s.threads && u in s.threads && t != u && Releasing(s.threads[t]).Some?
          ==> Releasing(s.threads[t]) != Releasing(s.threads[u]))
  }

  predicate OwnersOk(s: State) { Safe(Ownership(s.count, s.owner, s.handles)) }

  /** The last handle is gone and the wake that follows is still to come. */
  predicate PendingWake(pc: Pc) {
    (pc.ReleaseOwner? || pc.ReleaseUnlock? || pc.ReleaseWake?) && pc.last
  }

  predicate WakePending(s: State) { exists t :: t in s.threads && PendingWake(s.threads[t]) }

  /** A queued opener that nobody has woken and nobody is about to wake: once it has seen a
      positive count, the count is still positive and every owner it saw is the owner now. */
  predicate WaitSafe(s: State, pc: Pc) {
    match pc
    case Check(_, _, true, woken, n, o1, o2) =>
      (n.None? ==> o1.None? && o2.None?) &&
      (woken || WakePending(s) || n.None? || n == Some(0) ||
       (s.count > 0 && (o1.Some? ==> o1.value == s.owner) && (o2.Some? ==> o2.value == s.owner)))
    case Sleep(c, _, woken) => woken || WakePending(s) || (s.count > 0 && !Authorised(s.owner, c))
    case _ => true
  }

  predicate Waits(s: State) { forall t :: t in s.threads ==> WaitSafe(s, s.threads[t]) }

  predicate Inv(s: State) { Lock(s) && Known(s) && OwnersOk(s) && Waits(s) }

  // ----- every step keeps it

  predicate Moved(s: State, t: Tid, s': State) {
    && t in s.threads && s'.threads.Keys == s.threads.Keys
    && forall u :: u in s.threads && u != t ==>
         || s'.threads[u] == s.threads[u]
         || (PendingWake(s.threads[t]) && s.threads[t].ReleaseWake? && s'.threads[u] == Wake(s.threads[u]))
  }

  lemma StepMoves(s: State, t: Tid, a: Action)
    requires Step(s, t, a).Some?
    ensures Moved(s, t, Step(s, t, a).value)
  {
  }

  lemma WakeKeeps(pc: Pc)
    ensures Holding(Wake(pc)) == Holding(pc) && Releasing(Wake(pc)) == Releasing(pc)
    ensures PendingWake(Wake(pc)) == PendingWake(pc)
  {
  }

  lemma LockAfter(s: State, t: Tid, s': State)
    requires Lock(s) && Moved(s, t, s')
    requires Holding(s'.threads[t]) <==> s'.holder == Some(t)
    requires s'.holder != s.holder ==> (s.holder == Some(t) && s'.holder.None?) || (s.holder.None? && s'.holder == Some(t))
    ensures Lock(s')
  {
    forall u | u in s'.threads && u != t
      ensures Holding(s'.threads[u]) <==> s'.holder == Some(u)
    {
      WakeKeeps(s.threads[u]);
    }
  }

  /** The thread takes the lock only if it is free and gives back only its own. */
  lemma MoverLocks(s: State, t: Tid, a: Action)
    requires Step(s, t, a).Some? && (Holding(s.threads[t]) <==> s.holder == Some(t))
    ensures var s' := Step(s, t, a).value;
      && t in s'.threads && (Holding(s'.threads[t]) <==> s'.holder == Some(t))
      && (s'.holder != s.holder ==>
           (s.holder == Some(t) && s'.holder.None?) || (s.holder.None? && s'.holder == Some(t)))
  {
  }

  lemma StepKeepsLock(s: State, t: Tid, a: Action)
    requires Lock(s) && Step(s, t, a).Some?
    ensures Lock(Step(s, t, a).value)
  {
    StepMoves(s, t, a);
    MoverLocks(s, t, a);
    LockAfter(s, t, Step(s, t, a).value);
  }

  /** Only the holder of the lock changes count, owner or handles. */
  lemma OnlyHolderWrites(s: State, t: Tid, a: Action)
    requires Lock(s) && Step(s, t, a).Some?
    ensures var s' := Step(s, t, a).value;
      s'.count != s.count || s'.owner != s.owner || s'.handles != s.handles ==> s.holder == Some(t)
  {
  }

  lemma StepKeepsOwners(s: State, t: Tid, a: Action)
    requires Known(s) && OwnersOk(s) && Step(s, t, a).Some?
    ensures OwnersOk(Step(s, t, a).value)
  {
    assert Knows(s, s.threads[t]);
    var o := Ownership(s.count, s.owner, s.handles);
    match s.threads[t] {
      case OpenClaim(c) => if s.count == 0 { assert s.handles == map[]; }
      case OpenCount(c) => OpenedIsSafe(o, Unused(s.handles.Keys, 0), c);
      case ReleaseHeld(h) => ReleasedIsSafe(o, h);
      case ReleaseOwner(last) => if last { assert s.handles == map[]; }
      case _ =>
    }
  }

  lemma MoverKnows(s: State, t: Tid, a: Action)
    requires OwnersOk(s) && Step(s, t, a).Some? && Knows(s, s.threads[t])
    ensures t in Step(s, t, a).value.threads
    ensures Knows(Step(s, t, a).value, Step(s, t, a).value.threads[t])
  {
  }

  lemma StepNeedsThread(s: State, t: Tid, a: Action)
    requires Step(s, t, a).Some?
    ensures t in s.threads
  {
  }

  lemma StepKeepsKnown(s: State, t: Tid, a: Action)
    requires Lock(s) && Known(s) && OwnersOk(s) && Step(s, t, a).Some?
    ensures Known(Step(s, t, a).value)
  {
    hide Step;
    StepNeedsThread(s, t, a);
    var s' := Step(s, t, a).value;
    StepMoves(s, t, a);
    assert Knows(s, s.threads[t]);
    MoverKnows(s, t, a);
    OnlyHolderWrites(s, t, a);
    forall u | u in s'.threads && u != t
      ensures Knows(s', s'.threads[u]) && Releasing(s'.threads[u]) == Releasing(s.threads[u])
    {
      assert Knows(s, s.threads[u]);
      WakeKeeps(s.threads[u]);
      OthersKeepHandle(s, t, a, u);
    }
    MoverReleases(s, t, a);
  }

  /** Releasing one handle does not take another thread's handle away. */
  lemma OthersKeepHandle(s: State, t: Tid, a: Action, u: Tid)
    requires Known(s) && Step(s, t, a).Some? && u in s.threads && u != t
    requires Releasing(s.threads[u]).Some?
      ==> Releasing(s.threads[u]).value in s.handles
    ensures Releasing(s.threads[u]).Some? ==> Releasing(s.threads[u]).value in Step(s, t, a).value.handles
  {
  }

  lemma MoverReleases(s: State, t: Tid, a: Action)
    requires Step(s, t, a).Some?
    ensures var s' := Step(s, t, a).value;
      && t in s'.threads
      && (Releasing(s'.threads[t]).Some? ==>
           || Releasing(s'.threads[t]) == Releasing(s.threads[t])
           || forall u :: u in s.threads ==> Releasing(s.threads[u]) != Releasing(s'.threads[t]))
  {
  }

  lemma StaysPending(s: State, t: Tid, s': State)
    requires Moved(s, t, s') && WakePending(s)
    requires PendingWake(s.threads[t]) ==> PendingWake(s'.threads[t])
    ensures WakePending(s')
  {
    var u :| u in s.threads && PendingWake(s.threads[u]);
    WakeKeeps(s.threads[u]);
    assert PendingWake(s'.threads[u]);
  }

  /** Ways for a step not to surprise a queued opener. */
  predicate Undisturbed(s: State, t: Tid, s': State)
    requires Moved(s, t, s')
  {
    || PendingWake(s'.threads[t])
    || (forall u :: u in s.threads && u != t ==> s'.threads[u] == Wake(s.threads[u]))
    || (!PendingWake(s.threads[t]) && (s.count > 0 ==> s'.count > 0 && s'.owner == s.owner))
  }

  lemma WaitsAfter(s: State, t: Tid, s': State)
    requires Waits(s) && Moved(s, t, s') && Undisturbed(s, t, s') && WaitSafe(s', s'.threads[t])
    ensures Waits(s')
  {
    if PendingWake(s'.threads[t]) {
      assert WakePending(s');
    } else if !PendingWake(s.threads[t]) {
      if WakePending(s) { StaysPending(s, t, s'); }
    }
    forall u | u in s'.threads && u != t
      ensures WaitSafe(s', s'.threads[u])
    {
      assert WaitSafe(s, s.threads[u]);
    }
  }

  lemma StepUndisturbing(s: State, t: Tid, a: Action)
    requires t in s.threads && Knows(s, s.threads[t]) && OwnersOk(s) && Step(s, t, a).Some?
    ensures Moved(s, t, Step(s, t, a).value) && Undisturbed(s, t, Step(s, t, a).value)
  {
    StepMoves(s, t, a);
    if s.threads[t].ReleaseHeld? {
      assert |s.handles| > 0;
    }
  }

  lemma MoverWaits(s: State, t: Tid, a: Action)
    requires t in s.threads && (s.threads[t].OpenFlags? || s.threads[t].Check? || s.threads[t].Sleep?)
    requires OwnersOk(s) && WaitSafe(s, s.threads[t]) && StepOpen(s, t, a).Some?
    ensures var s' := StepOpen(s, t, a).value; t in s'.threads && WaitSafe(s', s'.threads[t])
  {
    var s' := StepOpen(s, t, a).value;
    StepMoves(s, t, a);
    if WakePending(s) { StaysPending(s, t, s'); }
  }

  lemma StepKeepsWaits(s: State, t: Tid, a: Action)
    requires Known(s) && OwnersOk(s) && Waits(s) && Step(s, t, a).Some?
    ensures Waits(Step(s, t, a).value)
  {
    assert Knows(s, s.threads[t]);
    StepUndisturbing(s, t, a);
    if s.threads[t].OpenFlags? || s.threads[t].Check? || s.threads[t].Sleep? {
      MoverWaits(s, t, a);
    }
    WaitsAfter(s, t, Step(s, t, a).value);
  }

  lemma StepKeepsInv(s: State, t: Tid, a: Action)
    requires Inv(s) && Step(s, t, a).Some?
    ensures Inv(Step(s, t, a).value)
  {
    StepKeepsLock(s, t, a);
    StepKeepsOwners(s, t, a);
    StepKeepsKnown(s, t, a);
    StepKeepsWaits(s, t, a);
  }

  lemma {:induction false} ExecKeepsInv(tids: set<Tid>, trace: seq<(Tid, Action)>)
    requires Exec(Init(tids), trace).Some?
    ensures Inv(Exec(Init(tids), trace).value)
  {
    if trace != [] {
      var last := |trace| - 1;
      ExecKeepsInv(tids, trace[..last]);
      StepKeepsInv(Exec(Init(tids), trace[..last]).value, trace[last].0, trace[last].1);
    }
  }

  // ----- the theorems

  /** No lost wakeup: an opener that sleeps, with no wake on its way, is rightly asleep. Also when
      another process took the device between a release and its wake. */
  lemma NoLostWakeup(tids: set<Tid>, trace: seq<(Tid, Action)>, s: State, t: Tid)
    requires Exec(Init(tids), trace) == Some(s)
    requires t in s.threads && s.threads[t].Sleep? && !s.threads[t].woken && !WakePending(s)
    ensures var c := s.threads[t].c; s.count > 0 && s.owner !in {c.uid, c.euid} && !c.override
  {
    ExecKeepsInv(tids, trace);
    assert WaitSafe(s, s.threads[t]);
  }

  /** Ownership safety: in every reachable state, whoever is half-way through whatever, the count is
      the number of open handles and each was opened by a process authorised against the owner. */
  lemma BlockingOwnershipSafety(tids: set<Tid>, trace: seq<(Tid, Action)>, s: State)
    requires Exec(Init(tids), trace) == Some(s)
    ensures s.count == |s.handles|
    ensures forall h :: h in s.handles ==>
      s.owner == s.handles[h].uid || s.owner == s.handles[h].euid || s.handles[h].override
    ensures forall t, u :: t in s.threads && u in s.threads && Holding(s.threads[t]) && Holding(s.threads[u]) ==> t == u
  {
    ExecKeepsInv(tids, trace);
  }

  /** The owner changes only while no handle is open. */
  lemma OwnerChangesOnlyWhenUnused(tids: set<Tid>, trace: seq<(Tid, Action)>, s: State, t: Tid, a: Action)
    requires Exec(Init(tids), trace) == Some(s) && Step(s, t, a).Some?
    requires Step(s, t, a).value.owner != s.owner
    ensures s.handles == map[] && Step(s, t, a).value.handles == map[]
  {
    ExecKeepsInv(tids, trace);
    assert Knows(s, s.threads[t]);
    assert |s.handles| == 0;
  }

  /** Steps until the wake of a releasing thread. */
  function ToWake(pc: Pc): nat {
    if pc.ReleaseOwner? then 3 else if pc.ReleaseUnlock? then 2 else if pc.ReleaseWake? then 1 else 0
  }

  /** Queued, and nobody has woken it. */
  predicate Queued(pc: Pc) { (pc.Sleep? && !pc.woken) || (pc.Check? && pc.queued && !pc.woken) }

  predicate OffQueue(m: Option<State>, u: Tid) { m.Some? && u in m.value.threads && !Queued(m.value.threads[u]) }

  /** At some moment along the trace, `u` has been woken or has left the queue by itself. */
  predicate LeftQueue(s: State, trace: seq<(Tid, Action)>, u: Tid) {
    exists k :: 0 <= k <= |trace| && OffQueue(Exec(s, trace[..k]), u)
  }

  /** How many steps of a trace are thread `t`'s. */
  function StepsOf(t: Tid, trace: seq<(Tid, Action)>): nat {
    if trace == [] then 0
    else StepsOf(t, trace[..|trace| - 1]) + (if trace[|trace| - 1].0 == t then 1 else 0)
  }

  /** Each step of a thread whose wake is pending brings it nearer; the wake reaches everyone. */
  lemma WakerSteps(s: State, t: Tid, a: Action)
    requires Step(s, t, a).Some? && PendingWake(s.threads[t])
    ensures var s' := Step(s, t, a).value;
      && t in s'.threads && ToWake(s'.threads[t]) == ToWake(s.threads[t]) - 1
      && (if ToWake(s'.threads[t]) == 0 then forall u :: u in s.threads ==> OffQueue(Some(s'), u)
          else PendingWake(s'.threads[t]))
  {
    hide StepOpen, StepIdle;
  }

  lemma WakerWaits(s: State, v: Tid, a: Action, t: Tid)
    requires Step(s, v, a).Some? && t in s.threads && t != v && PendingWake(s.threads[t])
    ensures var s' := Step(s, v, a).value; t in s'.threads && s'.threads[t] == s.threads[t]
  {
    hide Step;
    StepMoves(s, v, a);
  }

  /** Along any trace: `u` has been off the queue by now, or the wake is as much nearer as its
      thread has taken steps. */
  lemma {:induction false} WakeComes(s: State, trace: seq<(Tid, Action)>, t: Tid, u: Tid)
    requires t in s.threads && PendingWake(s.threads[t]) && u in s.threads && Exec(s, trace).Some?
    ensures var m := Exec(s, trace).value;
      && u in m.threads
      && (|| LeftQueue(s, trace, u)
          || (&& t in m.threads && PendingWake(m.threads[t])
              && ToWake(m.threads[t]) + StepsOf(t, trace) == ToWake(s.threads[t])))
  {
    hide Step, PendingWake, Queued, ToWake;
    if trace != [] {
      var last := |trace| - 1;
      var (v, a) := trace[last];
      WakeComes(s, trace[..last], t, u);
      var m := Exec(s, trace[..last]).value;
      StepNeedsThread(m, v, a);
      StepMoves(m, v, a);
      if LeftQueue(s, trace[..last], u) {
        var k :| 0 <= k <= last && OffQueue(Exec(s, trace[..last][..k]), u);
        assert trace[..last][..k] == trace[..k];
      } else if v == t {
        WakerSteps(m, v, a);
        assert trace[..|trace|] == trace;
      } else {
        WakerWaits(m, v, a, t);
      }
    }
  }

  lemma WakerBounds(s: State, t: Tid)
    requires t in s.threads && PendingWake(s.threads[t])
    ensures 1 <= ToWake(s.threads[t]) <= 3 && Step(s, t, Go).Some?
  {
  }

  /** A wake that is pending comes: its thread, never blocked, needs three steps at most, and in
      every continuation that has them every opener queued before has been woken, or has left, at
      some moment. */
  lemma PendingWakeArrives(s: State, more: seq<(Tid, Action)>, t: Tid, u: Tid)
    requires t in s.threads && PendingWake(s.threads[t]) && u in s.threads && Exec(s, more).Some?
    ensures 1 <= ToWake(s.threads[t]) <= 3 && Step(s, t, Go).Some?
    ensures ToWake(s.threads[t]) <= StepsOf(t, more) ==> LeftQueue(s, more, u)
  {
    hide Step, Exec;
    WakeComes(s, more, t, u);
    WakerBounds(s, t);
    var m := Exec(s, more).value;
    if t in m.threads && PendingWake(m.threads[t]) { WakerBounds(m, t); }
  }

  /** So an opener that sleeps although the device is free for it has one thread it can count on. */
  lemma SleeperIsWoken(tids: set<Tid>, trace: seq<(Tid, Action)>, s: State, u: Tid) returns (t: Tid)
    requires Exec(Init(tids), trace) == Some(s)
    requires u in s.threads && s.threads[u].Sleep? && !s.threads[u].woken && Available(s, s.threads[u].c)
    ensures t in s.threads && PendingWake(s.threads[t])
    ensures forall more :: Exec(s, more).Some? && ToWake(s.threads[t]) <= StepsOf(t, more) ==> LeftQueue(s, more, u)
  {
    hide Exec;
    if !WakePending(s) { NoLostWakeup(tids, trace, s, u); }
    t :| t in s.threads && PendingWake(s.threads[t]);
    forall more | Exec(s, more).Some? && ToWake(s.threads[t]) <= StepsOf(t, more)
      ensures LeftQueue(s, more, u)
    {
      PendingWakeArrives(s, more, t, u);
    }
  }
}
