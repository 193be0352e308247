/** What the calls on the blocking uid-owned device return, and to whom it belongs, over every run. */
module BlockingUidCalls {
  import opened Kernel
  import UidDevice
  import opened BlockingUidDevice

  /** What can be observed of a thread's latest call: how it was made, whether the device was found
      taken under the lock, whether a signal came, and which handles its steps added and removed. */
  datatype Log = Log(call: Option<Action>, denied: bool, signalled: bool, added: map<UidDevice.Hid, UidDevice.Cred>, removed: set<UidDevice.Hid>)

  const NoCall: Log := Log(None, false, false, map[], {})

  /** The device is open, and its owner is neither uid of the process, which cannot override. */
  predicate Taken(s: State, c: UidDevice.Cred) { s.count > 0 && s.owner != c.uid && s.owner != c.euid && !c.override }

  function Added(s: State, s': State): map<UidDevice.Hid, UidDevice.Cred> {
    map h | h in s'.handles && h !in s.handles :: s'.handles[h]
  }

  function Noted(log: Log, s: State, pc: Pc, a: Action, s': State): Log {
    if pc.Idle? then NoCall.(call := Some(a))
    else
      log.(denied := log.denied || (pc.OpenHeld? && log.call.Some? && log.call.value.BeginOpen? && Taken(s, log.call.value.c)),
           signalled := log.signalled || a.Interrupt?,
           added := log.added + Added(s, s'),
           removed := log.removed + (s.handles.Keys - s'.handles.Keys))
  }

  /** The log of thread `t` after a trace: only its own steps count. */
  function LogOf(s0: State, trace: seq<(Tid, Action)>, t: Tid): Log {
    if trace == [] then NoCall
    else
      var last := |trace| - 1;
      var log := LogOf(s0, trace[..last], t);
      match Exec(s0, trace[..last])
      case None => log
      case Some(m) =>
        var (u, a) := trace[last];
        if u != t || t !in m.threads || Step(m, t, a).None? then log
        else Noted(log, m, m.threads[t], a, Step(m, t, a).value)
  }

  // ----- what a log says at every point of a call

  predicate Opening(log: Log, c: UidDevice.Cred, nonblock: bool) {
    log.call == Some(BeginOpen(c, nonblock)) && log.removed == {} && !log.signalled && (log.denied ==> !c.override)
  }

  /** Found taken, it stays in the call only as a blocking open. */
  predicate Pending(log: Log, c: UidDevice.Cred, nonblock: bool) {
    Opening(log, c, nonblock) && log.added == map[] && (log.denied ==> !nonblock)
  }

  predicate Admitted(log: Log) {
    && log.call.Some? && log.call.value.BeginOpen? && log.removed == {} && !log.signalled
    && (log.denied ==> !log.call.value.nonblock)
  }

  predicate AddedOne(log: Log, c: UidDevice.Cred) { exists h :: h in log.added && log.added == map[h := c] }

  predicate Releases(log: Log, h: UidDevice.Hid) {
    log.call == Some(BeginRelease(h)) && log.added == map[] && !log.denied && !log.signalled
  }

  predicate RemovedOne(log: Log) {
    log.call.Some? && log.call.value.BeginRelease? && Releases(log, log.call.value.h) && log.removed == {log.call.value.h}
  }

  /** What a finished call returned, from what was observed of it. */
  predicate Returned(log: Log, ret: Ret) {
    match log.call
    case None => ret.Nothing?
    case Some(BeginOpen(c, nonblock)) =>
      && log.removed == {}
      && ret == (if log.signalled then Failed(ERESTARTSYS)
                 else if log.denied && nonblock then Failed(EAGAIN)
                 else Done)
      && (if ret.Done? then AddedOne(log, c) else log.added == map[])
      && (log.signalled ==> log.denied && !nonblock)
    case Some(BeginRelease(h)) => ret.Done? && log.added == map[] && log.removed == {h}
    case Some(_) => false
  }

  predicate Told(log: Log, pc: Pc) {
    match pc
    case Idle(ret) => Returned(log, ret)
    case OpenLock(c, nonblock) => Pending(log, c, nonblock)
    case OpenHeld(c, nonblock) => Pending(log, c, nonblock)
    case OpenFlags(c, nonblock) => Opening(log, c, nonblock) && log.added == map[] && log.denied
    case Check(c, nonblock, _, _, _, _, _) => Pending(log, c, nonblock) && log.denied
    case Sleep(c, nonblock, _) => Pending(log, c, nonblock) && log.denied
    case OpenClaim(c) => Admitted(log) && log.added == map[] && log.call.value.c == c
    case OpenCount(c) => Admitted(log) && log.added == map[] && log.call.value.c == c
    case OpenUnlock => Admitted(log) && AddedOne(log, log.call.value.c)
    case ReleaseLock(h) => Releases(log, h) && log.removed == {}
    case ReleaseHeld(h) => Releases(log, h) && log.removed == {}
    case ReleaseOwner(_) => RemovedOne(log)
    case ReleaseUnlock(_) => RemovedOne(log)
    case ReleaseWake(_) => RemovedOne(log)
  }

  /** Which handles a step adds and removes. */
  lemma StepChanges(s: State, t: Tid, a: Action)
    requires Inv(s) && Step(s, t, a).Some?
    ensures var pc, s' := s.threads[t], Step(s, t, a).value;
      && Added(s, s') == (if pc.OpenCount? then map[Unused(s.handles.Keys, 0) := pc.c] else map[])
      && s.handles.Keys - s'.handles.Keys == (if pc.ReleaseHeld? then {pc.h} else {})
  {
    hide Step, Inv;
    StepNeedsThread(s, t, a);
    HandlesAfter(s, t, a);
    if s.threads[t].ReleaseHeld? { HandleThere(s, t); }
  }

  lemma HandlesAfter(s: State, t: Tid, a: Action)
    requires Step(s, t, a).Some?
    ensures var pc := s.threads[t];
      Step(s, t, a).value.handles
        == if pc.OpenCount? then s.handles[Unused(s.handles.Keys, 0) := pc.c]
           else if pc.ReleaseHeld? then s.handles - {pc.h} else s.handles
  {
  }

  lemma HandleThere(s: State, t: Tid)
    requires Inv(s) && t in s.threads && s.threads[t].ReleaseHeld?
    ensures s.threads[t].h in s.handles
  {
    assert Knows(s, s.threads[t]);
  }

  lemma MoverTold(s: State, t: Tid, a: Action, log: Log)
    requires Inv(s) && Step(s, t, a).Some? && Told(log, s.threads[t])
    ensures var s' := Step(s, t, a).value;
      t in s'.threads && Told(Noted(log, s, s.threads[t], a, s'), s'.threads[t])
  {
    hide Inv, Added;
    StepChanges(s, t, a);
    CountNotNegative(s);
    hide StepOpen, StepRelease, StepIdle;
    if s.threads[t].Idle? {
      IdleTold(s, t, a, log);
    } else if IsRelease(s.threads[t]) {
      ReleaseTold(s, t, a, log);
    } else {
      OpenTold(s, t, a, log);
    }
  }

  lemma CountNotNegative(s: State)
    requires Inv(s)
    ensures s.count >= 0
  {
  }

  lemma IdleTold(s: State, t: Tid, a: Action, log: Log)
    requires t in s.threads && s.threads[t].Idle? && StepIdle(s, t, a).Some?
    ensures var s' := StepIdle(s, t, a).value;
      t in s'.threads && Told(Noted(log, s, s.threads[t], a, s'), s'.threads[t])
  {
  }

  lemma ReleaseTold(s: State, t: Tid, a: Action, log: Log)
    requires t in s.threads && IsRelease(s.threads[t]) && StepRelease(s, t, a).Some? && Told(log, s.threads[t])
    requires var pc, s' := s.threads[t], StepRelease(s, t, a).value;
      && Added(s, s') == map[]
      && s.handles.Keys - s'.handles.Keys == (if pc.ReleaseHeld? then {pc.h} else {})
    ensures var s' := StepRelease(s, t, a).value;
      t in s'.threads && Told(Noted(log, s, s.threads[t], a, s'), s'.threads[t])
  {
    hide Added;
  }

  lemma OpenTold(s: State, t: Tid, a: Action, log: Log)
    requires t in s.threads && !s.threads[t].Idle? && !IsRelease(s.threads[t])
    requires StepOpen(s, t, a).Some? && Told(log, s.threads[t])
    requires var pc, s' := s.threads[t], StepOpen(s, t, a).value;
      && Added(s, s') == (if pc.OpenCount? then map[Unused(s.handles.Keys, 0) := pc.c] else map[])
      && s.handles.Keys - s'.handles.Keys == {}
    requires s.count >= 0
    ensures var s' := StepOpen(s, t, a).value;
      t in s'.threads && Told(Noted(log, s, s.threads[t], a, s'), s'.threads[t])
  {
    hide Added;
    if s.threads[t].OpenCount? {
      var h := Unused(s.handles.Keys, 0);
      assert Noted(log, s, s.threads[t], a, StepOpen(s, t, a).value).added == map[h := s.threads[t].c];
    }
  }

  lemma {:induction false} AllTold(tids: set<Tid>, trace: seq<(Tid, Action)>, s: State, t: Tid)
    requires Exec(Init(tids), trace) == Some(s) && t in s.threads
    ensures Told(LogOf(Init(tids), trace, t), s.threads[t])
  {
    hide Told, Noted, Step, Inv;
    if trace == [] {
      NothingTold();
    } else {
      var last := |trace| - 1;
      var m := Exec(Init(tids), trace[..last]).value;
      var (u, a) := trace[last];
      ExecKeepsInv(tids, trace[..last]);
      StepNeedsThread(m, u, a);
      StepMoves(m, u, a);
      AllTold(tids, trace[..last], m, t);
      if u == t {
        MoverTold(m, t, a, LogOf(Init(tids), trace[..last], t));
      } else {
        WakeTold(LogOf(Init(tids), trace[..last], t), m.threads[t]);
      }
    }
  }

  lemma NothingTold()
    ensures Told(NoCall, Idle(Nothing))
  {
  }

  lemma WakeTold(log: Log, pc: Pc)
    requires Told(log, pc)
    ensures Told(log, Wake(pc))
  {
  }

  // ----- what the calls return

  /** In every run, an open returns -ERESTARTSYS exactly if a signal reached it, -EAGAIN exactly if it
      was made with O_NONBLOCK and found the device taken under the lock, and 0 otherwise; only with
      0 has it added a handle, one with its own credentials. A signal reaches only a blocking open
      that found the device taken. */
  lemma OpenReturns(tids: set<Tid>, trace: seq<(Tid, Action)>, s: State, t: Tid, c: UidDevice.Cred, nonblock: bool)
    requires Exec(Init(tids), trace) == Some(s) && t in s.threads && s.threads[t].Idle?
    requires LogOf(Init(tids), trace, t).call == Some(BeginOpen(c, nonblock))
    ensures var log, ret := LogOf(Init(tids), trace, t), s.threads[t].ret;
      && (ret == Failed(ERESTARTSYS) <==> log.signalled)
      && (ret == Failed(EAGAIN) <==> nonblock && log.denied)
      && (ret == Done || ret == Failed(ERESTARTSYS) || ret == Failed(EAGAIN))
      && (if ret.Done? then exists h :: h in log.added && log.added == map[h := c] else log.added == map[])
      && log.removed == {} && (log.signalled ==> !nonblock && log.denied)
  {
    hide Exec, LogOf;
    AllTold(tids, trace, s, t);
  }

  /** A release returns 0 and has removed its handle and no other. */
  lemma ReleaseReturns(tids: set<Tid>, trace: seq<(Tid, Action)>, s: State, t: Tid, h: UidDevice.Hid)
    requires Exec(Init(tids), trace) == Some(s) && t in s.threads && s.threads[t].Idle?
    requires LogOf(Init(tids), trace, t).call == Some(BeginRelease(h))
    ensures s.threads[t].ret == Done
    ensures LogOf(Init(tids), trace, t).removed == {h} && LogOf(Init(tids), trace, t).added == map[]
  {
    hide Exec, LogOf;
    AllTold(tids, trace, s, t);
  }

  // ----- to whom the device belongs

  /** The real uid of the process whose open added a handle while there was none, the last time. */
  function FirstOpener(s0: State, trace: seq<(Tid, Action)>): UidDevice.Uid {
    if trace == [] then 0
    else
      var last := |trace| - 1;
      match (Exec(s0, trace[..last]), Exec(s0, trace), LogOf(s0, trace, trace[last].0).call)
      case (Some(m), Some(s), Some(BeginOpen(c, _))) =>
        if m.handles == map[] && s.handles != map[] then c.uid else FirstOpener(s0, trace[..last])
      case _ => FirstOpener(s0, trace[..last])
  }

  /** Without a handle the device has an owner only in the middle of a call. */
  predicate Cleared(s: State) {
    s.handles == map[] && s.owner != 0 ==>
      && s.holder.Some? && s.holder.value in s.threads
      && (s.threads[s.holder.value].OpenCount? || s.threads[s.holder.value].ReleaseOwner?)
  }

  lemma HolderKeepsCleared(s: State, t: Tid, a: Action)
    requires Inv(s) && Cleared(s) && Step(s, t, a).Some? && Holding(s.threads[t])
    ensures Cleared(Step(s, t, a).value)
  {
    assert Knows(s, s.threads[t]);
    assert s.count == |s.handles|;
    assert s.holder == Some(t);
    if s.threads[t].OpenCount? {
      assert Unused(s.handles.Keys, 0) in Step(s, t, a).value.handles;
    }
  }

  lemma StepKeepsCleared(s: State, t: Tid, a: Action)
    requires Inv(s) && Cleared(s) && Step(s, t, a).Some?
    ensures Cleared(Step(s, t, a).value)
  {
    StepNeedsThread(s, t, a);
    if Holding(s.threads[t]) {
      HolderKeepsCleared(s, t, a);
    } else {
      OutsideKeeps(s, t, a);
    }
  }

  lemma OutsideKeeps(s: State, t: Tid, a: Action)
    requires Inv(s) && Cleared(s) && Step(s, t, a).Some? && !Holding(s.threads[t])
    ensures Cleared(Step(s, t, a).value)
  {
    OnlyHolderWrites(s, t, a);
    StepMoves(s, t, a);
    MoverLocks(s, t, a);
  }

  /** The first handle goes to whoever has made himself the owner. */
  lemma StepOwner(s: State, t: Tid, a: Action)
    requires Inv(s) && Step(s, t, a).Some? && Step(s, t, a).value.handles != map[]
    ensures var s' := Step(s, t, a).value;
      s'.owner == if s.handles == map[] then s.threads[t].c.uid else s.owner
    ensures s.handles == map[] ==> s.threads[t].OpenCount?
  {
    assert Knows(s, s.threads[t]);
    assert s.count == |s.handles|;
  }

  /** In every reachable state the owner of an open device is the real uid of the process whose open
      found it without handles; without handles, and nobody inside the lock, it has no owner. */
  lemma {:induction false} OwnerIsFirstOpener(tids: set<Tid>, trace: seq<(Tid, Action)>, s: State)
    requires Exec(Init(tids), trace) == Some(s)
    ensures s.handles != map[] ==> s.owner == FirstOpener(Init(tids), trace)
    ensures s.handles == map[] && s.holder.None? ==> s.owner == 0
    ensures Cleared(s)
  {
    hide Step, Inv, LogOf;
    if trace != [] {
      var last := |trace| - 1;
      var m := Exec(Init(tids), trace[..last]).value;
      var (t, a) := trace[last];
      OwnerIsFirstOpener(tids, trace[..last], m);
      ExecKeepsInv(tids, trace[..last]);
      StepNeedsThread(m, t, a);
      StepKeepsCleared(m, t, a);
      if s.handles != map[] {
        StepOwner(m, t, a);
        if m.handles == map[] { CountingCall(tids, trace, m, t, a); }
      }
    }
  }

  /** Whoever counts a handle is in the open its log says, with those credentials. */
  lemma CountingCall(tids: set<Tid>, trace: seq<(Tid, Action)>, m: State, t: Tid, a: Action)
    requires trace != [] && trace[|trace| - 1] == (t, a)
    requires Exec(Init(tids), trace[..|trace| - 1]) == Some(m) && Step(m, t, a).Some?
    requires t in m.threads && m.threads[t].OpenCount?
    ensures var call := LogOf(Init(tids), trace, t).call;
      call.Some? && call.value.BeginOpen? && call.value.c == m.threads[t].c
  {
    hide Step;
    AllTold(tids, trace[..|trace| - 1], m, t);
  }

  // ----- who waits, and for how long

  /** In every reachable state, only a blocking open that has found the device taken is in the wait
      loop. */
  lemma OnlyBlockingOpensWait(tids: set<Tid>, trace: seq<(Tid, Action)>, s: State, t: Tid)
    requires Exec(Init(tids), trace) == Some(s)
    requires t in s.threads && (s.threads[t].Check? || s.threads[t].Sleep?)
    ensures !s.threads[t].nonblock
    ensures var log := LogOf(Init(tids), trace, t);
      log.call == Some(BeginOpen(s.threads[t].c, false)) && log.denied && !s.threads[t].c.override
  {
    hide Exec, LogOf;
    AllTold(tids, trace, s, t);
  }

  predicate Sleeping(s: State, t: Tid, c: UidDevice.Cred, nonblock: bool) {
    t in s.threads && s.threads[t].Sleep? && s.threads[t].c == c && s.threads[t].nonblock == nonblock
  }

  /** Some run puts an open with these credentials and this flag to sleep. */
  ghost predicate OpenerCanSleep(c: UidDevice.Cred, nonblock: bool) {
    exists tids: set<Tid>, trace: seq<(Tid, Action)>, s: State, t: Tid ::
      Exec(Init(tids), trace) == Some(s) && Sleeping(s, t, c, nonblock)
  }

  lemma ExecMore(s: State, trace: seq<(Tid, Action)>, m: State, t: Tid, a: Action)
    requires Exec(s, trace) == Some(m)
    ensures Exec(s, trace + [(t, a)]) == Step(m, t, a)
  {
    hide Step;
    assert (trace + [(t, a)])[..|trace|] == trace;
  }

  lemma {:induction false} ExecConcat(s: State, trace: seq<(Tid, Action)>, more: seq<(Tid, Action)>)
    requires Exec(s, trace).Some?
    ensures Exec(s, trace + more) == Exec(Exec(s, trace).value, more)
  {
    hide Step;
    if more == [] {
      assert trace + more == trace;
    } else {
      var last := |more| - 1;
      assert (trace + more)[..|trace| + last] == trace + more[..last];
      ExecConcat(s, trace, more[..last]);
    }
  }

  /** Thread `t` opens the idle device. */
  lemma OpenRun(tids: set<Tid>, t: Tid, c: UidDevice.Cred) returns (trace: seq<(Tid, Action)>, s: State)
    requires t in tids
    ensures Exec(Init(tids), trace) == Some(s)
    ensures s == State(None, 1, c.uid, map[Unused({}, 0) := c], Init(tids).threads[t := Idle(Done)])
  {
    var s0 := Init(tids);
    trace, s := [], s0;
    ExecMore(s0, trace, s, t, BeginOpen(c, false));
    trace, s := trace + [(t, BeginOpen(c, false))], Step(s, t, BeginOpen(c, false)).value;
    assert s == At(s0, t, OpenLock(c, false));
    var pcs := [OpenHeld(c, false), OpenClaim(c), OpenCount(c), OpenUnlock, Idle(Done)];
    for i := 0 to 5
      invariant Exec(s0, trace) == Some(s) && t in s.threads
      invariant s.threads == s0.threads[t := if i == 0 then OpenLock(c, false) else pcs[i - 1]]
      invariant s.holder == if 0 < i < 5 then Some(t) else None
      invariant s.owner == if i < 3 then 0 else c.uid
      invariant if i < 4 then s.count == 0 && s.handles == map[]
                else s.count == 1 && s.handles == map[Unused({}, 0) := c]
    {
      ExecMore(s0, trace, s, t, Go);
      trace, s := trace + [(t, Go)], Step(s, t, Go).value;
    }
  }

  /** Thread `t` finds the device taken and goes to sleep. */
  lemma SleepRun(s0: State, t: Tid, c: UidDevice.Cred) returns (trace: seq<(Tid, Action)>, s: State)
    requires t in s0.threads && s0.threads[t].Idle? && s0.holder.None? && Taken(s0, c)
    ensures Exec(s0, trace) == Some(s) && Sleeping(s, t, c, false)
  {
    trace, s := [], s0;
    ExecMore(s0, trace, s, t, BeginOpen(c, false));
    trace, s := trace + [(t, BeginOpen(c, false))], Step(s, t, BeginOpen(c, false)).value;
    var n, o := Some(s0.count), Some(s0.owner);
    var pcs := [OpenLock(c, false), OpenHeld(c, false), OpenFlags(c, false),
                Check(c, false, false, false, None, None, None), Check(c, false, false, false, n, None, None),
                Check(c, false, false, false, n, o, None), Check(c, false, false, false, n, o, o),
                Check(c, false, true, false, None, None, None), Check(c, false, true, false, n, None, None),
                Check(c, false, true, false, n, o, None), Check(c, false, true, false, n, o, o),
                Sleep(c, false, false)];
    for i := 0 to 11
      invariant Exec(s0, trace) == Some(s) && t in s.threads
      invariant s.threads[t] == pcs[i]
      invariant s.holder == if i == 1 then Some(t) else None
      invariant s.count == s0.count && s.owner == s0.owner
    {
      var a := if i in {3, 4, 5, 7, 8, 9} then See else Go;
      ExecMore(s0, trace, s, t, a);
      trace, s := trace + [(t, a)], Step(s, t, a).value;
    }
  }

  /** An open can be put to sleep exactly when it lacks O_NONBLOCK and the process cannot override
      the owner. */
  lemma OpenerSleepsIff(c: UidDevice.Cred, nonblock: bool)
    ensures OpenerCanSleep(c, nonblock) <==> !nonblock && !c.override
  {
    hide Exec, Step, LogOf;
    if !nonblock && !c.override {
      var other := UidDevice.Cred(c.uid + c.euid + 1, 0, false);
      var trace, s := OpenRun({0, 1}, 0, other);
      var more, s' := SleepRun(s, 1, c);
      ExecConcat(Init({0, 1}), trace, more);
    }
    forall tids: set<Tid>, trace: seq<(Tid, Action)>, s: State, t: Tid |
      Exec(Init(tids), trace) == Some(s) && Sleeping(s, t, c, nonblock)
      ensures !nonblock && !c.override
    {
      OnlyBlockingOpensWait(tids, trace, s, t);
    }
  }

  /** Asleep and not woken, or at a lock that another thread has. */
  predicate Blocked(s: State, pc: Pc) {
    || (pc.Sleep? && !pc.woken)
    || ((pc.OpenLock? || pc.ReleaseLock?) && s.holder.Some?)
  }

  function NextAction(pc: Pc): Action { if pc.Check? && Verdict(pc).None? then See else Go }

  /** In every reachable state a thread in a call is blocked in those two ways only: otherwise its
      next step is possible, asleep it can be interrupted, and whoever has the lock is not blocked
      and needs at most four steps to give it back. */
  lemma NeverStuck(tids: set<Tid>, trace: seq<(Tid, Action)>, s: State, t: Tid)
    requires Exec(Init(tids), trace) == Some(s) && t in s.threads && !s.threads[t].Idle?
    ensures Step(s, t, NextAction(s.threads[t])).Some? <==> !Blocked(s, s.threads[t])
    ensures s.threads[t].Sleep? ==> Step(s, t, Interrupt).Some?
    ensures s.holder == Some(t) ==> !Blocked(s, s.threads[t]) && 1 <= ToUnlock(s.threads[t]) <= 4
    ensures s.holder == Some(t) ==>
      var s' := Step(s, t, Go).value;
      t in s'.threads && ToUnlock(s'.threads[t]) < ToUnlock(s.threads[t]) && (ToUnlock(s'.threads[t]) == 0 ==> s'.holder.None?)
  {
    ExecKeepsInv(tids, trace);
    assert Holding(s.threads[t]) <==> s.holder == Some(t);
    hide Step;
    StepUnlessBlocked(s, t);
    if s.holder == Some(t) { HolderSteps(s, t); }
  }

  lemma StepUnlessBlocked(s: State, t: Tid)
    requires t in s.threads && !s.threads[t].Idle?
    ensures Step(s, t, NextAction(s.threads[t])).Some? <==> !Blocked(s, s.threads[t])
    ensures s.threads[t].Sleep? ==> Step(s, t, Interrupt).Some?
  {
  }

  lemma HolderSteps(s: State, t: Tid)
    requires t in s.threads && Holding(s.threads[t])
    ensures 1 <= ToUnlock(s.threads[t]) <= 4 && Step(s, t, Go).Some?
    ensures var s' := Step(s, t, Go).value;
      && t in s'.threads && ToUnlock(s'.threads[t]) < ToUnlock(s.threads[t])
      && (ToUnlock(s'.threads[t]) == 0 ==> s'.holder.None?)
  {
  }

  /** Steps until the lock is free again. */
  function ToUnlock(pc: Pc): nat {
    match pc
    case OpenHeld(_, _) => 4
    case OpenClaim(_) => 3
    case OpenCount(_) => 2
    case OpenUnlock => 1
    case ReleaseHeld(_) => 3
    case ReleaseOwner(_) => 2
    case ReleaseUnlock(_) => 1
    case _ => 0
  }
}
