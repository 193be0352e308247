/** scull_p_poll beside the other calls of the pipe. It tests down_interruptible the wrong way
    round: granted, it returns at once and keeps the semaphore; interrupted, it goes on and ends
    with `up`. */
module PipePoll {
  import opened Kernel
  import opened PipeProtocol
  import opened PipeInvariant
  import opened PipeTheorems

  datatype Event =
    | Call(t: Tid, a: Action)
    | PollGranted(t: Tid, h: Hid)
    | PollInterrupted(t: Tid, h: Hid)  // while it waits; with the `up` that follows

  datatype World = World(s: State, granted: nat, interrupted: nat)

  function Start(size: nat, tids: set<Tid>): World
    requires size > 0
  {
    World(Init(size, tids), 0, 0)
  }

  predicate CanPoll(s: State, t: Tid, h: Hid) {
    t in s.threads && s.threads[t].Idle? && h in s.handles && s.handles[h].status.Live?
  }

  function Next(w: World, e: Event): Option<World> {
    match e
    case Call(t, a) =>
      (match Step(w.s, t, a)
       case None => None
       case Some(s') => Some(w.(s := s')))
    case PollGranted(t, h) =>
      if CanPoll(w.s, t, h) && w.s.sem > 0
      then Some(World(w.s.(sem := w.s.sem - 1), w.granted + 1, w.interrupted)) else None
    case PollInterrupted(t, h) =>
      if CanPoll(w.s, t, h) && w.s.sem == 0
      then Some(World(w.s.(sem := w.s.sem + 1), w.granted, w.interrupted + 1)) else None
  }

  function Play(w: World, events: seq<Event>): Option<World> {
    if events == [] then Some(w)
    else
      var last := |events| - 1;
      match Play(w, events[..last])
      case None => None
      case Some(m) => Next(m, events[last])
  }

  // ----- the accounting

  lemma NextAccounts(w: World, e: Event)
    requires Next(w, e).Some?
    ensures var w' := Next(w, e).value;
      Tokens(w'.s) + w'.granted + w.interrupted == Tokens(w.s) + w.granted + w'.interrupted
  {
    hide Step;
    var w' := Next(w, e).value;
    if e.Call? {
      StepKeepsTokens(w.s, e.t, e.a);
    } else {
      assert Holders(w'.s) == Holders(w.s);
    }
  }

  lemma {:induction false} PlayAccounts(w: World, events: seq<Event>)
    requires Play(w, events).Some?
    ensures var w' := Play(w, events).value;
      Tokens(w'.s) + w'.granted + w.interrupted == Tokens(w.s) + w.granted + w'.interrupted
  {
    if events != [] {
      var last := |events| - 1;
      PlayAccounts(w, events[..last]);
      NextAccounts(Play(w, events[..last]).value, events[last]);
    }
  }

  /** Over every run with polls: the semaphore plus the threads inside is one, plus the polls that
      were interrupted, minus those that were granted. */
  lemma PollAccounting(size: nat, tids: set<Tid>, events: seq<Event>, w: World)
    requires size > 0 && Play(Start(size, tids), events) == Some(w)
    ensures w.s.sem + |Holders(w.s)| == 1 + w.interrupted - w.granted
    ensures w.granted <= w.interrupted + 1
    ensures Lock(w.s) <==> w.granted == w.interrupted
  {
    assert Holders(Init(size, tids)) == {};
    PlayAccounts(Start(size, tids), events);
  }

  // ----- one poll granted too many: nobody gets in

  predicate Stuck(s: State) { s.sem == 0 && Holders(s) == {} }

  lemma StuckIff(size: nat, tids: set<Tid>, events: seq<Event>, w: World)
    requires size > 0 && Play(Start(size, tids), events) == Some(w)
    ensures Stuck(w.s) <==> w.granted == w.interrupted + 1
  {
    PollAccounting(size, tids, events, w);
    if |Holders(w.s)| == 0 { assert Holders(w.s) == {}; }
  }

  predicate NoneInterrupted(events: seq<Event>) {
    forall k :: 0 <= k < |events| ==> !events[k].PollInterrupted?
  }

  /** A stuck device stays stuck, and no byte moves, until a poll is interrupted. */
  lemma {:induction false} StuckUntilInterrupted(w: World, events: seq<Event>)
    requires Stuck(w.s) && Play(w, events).Some? && NoneInterrupted(events)
    ensures var w' := Play(w, events).value;
      && Stuck(w'.s)
      && w'.s.ring == w.s.ring && w'.s.written == w.s.written && w'.s.consumed == w.s.consumed
  {
    if events != [] {
      var last := |events| - 1;
      StuckUntilInterrupted(w, events[..last]);
      var m := Play(w, events[..last]).value;
      assert !events[last].PollInterrupted?;
      if events[last].Call? { StuckStep(m.s, events[last].t, events[last].a); }
    }
  }

  /** An interrupted poll makes a stuck device usable again. */
  lemma InterruptedPollRevives(w: World, t: Tid, h: Hid)
    requires Stuck(w.s) && CanPoll(w.s, t, h)
    ensures var w' := Next(w, PollInterrupted(t, h));
      w'.Some? && Lock(w'.value.s) && w'.value.s.sem == 1
  {
    assert Holders(w.s.(sem := 1)) == Holders(w.s);
  }

  lemma StuckStep(s: State, t: Tid, a: Action)
    requires Stuck(s) && Step(s, t, a).Some?
    ensures Stuck(Step(s, t, a).value) && Untouched(s, Step(s, t, a).value)
  {
    hide Step, Holding;
    StepNeedsThread(s, t, a);
    assert t !in Holders(s);
    StepOutside(s, t, a);
    StepKeepsTokens(s, t, a);
    SemNeverGrows(s, t, a);
    var s' := Step(s, t, a).value;
    if |Holders(s')| == 0 { assert Holders(s') == {}; }
  }

  /** Outside the critical section nobody gives the semaphore back. */
  lemma SemNeverGrows(s: State, t: Tid, a: Action)
    requires Step(s, t, a).Some? && !Holding(s.threads[t])
    ensures Step(s, t, a).value.sem <= s.sem
  {
    hide Step;
    StepNeedsThread(s, t, a);
    if InUse(s.threads[t]) { StepUsed(s, t, a); } else { OtherIsQuiet(s, t, a); }
  }

  // ----- one poll interrupted too many: two get in

  /** Two threads inside at once takes more interrupted polls than granted ones. */
  lemma TwoInsideOnlyIf(size: nat, tids: set<Tid>, events: seq<Event>, w: World)
    requires size > 0 && Play(Start(size, tids), events) == Some(w)
    ensures |Holders(w.s)| > 1 ==> w.interrupted > w.granted
  {
    PollAccounting(size, tids, events, w);
  }

  lemma PlayMore(w: World, events: seq<Event>, m: World, e: Event)
    requires Play(w, events) == Some(m)
    ensures Play(w, events + [e]) == Next(m, e)
  {
    assert (events + [e])[..|events|] == events;
  }

  /** A run without polls is a run. */
  lemma {:induction false} PlaysExec(w: World, events: seq<Event>, m: World, trace: seq<(Tid, Action)>) returns (events': seq<Event>)
    requires Play(w, events) == Some(m) && Exec(m.s, trace).Some?
    ensures events <= events' && Play(w, events') == Some(m.(s := Exec(m.s, trace).value))
  {
    hide Step;
    if trace == [] {
      events' := events;
    } else {
      var last := |trace| - 1;
      events' := PlaysExec(w, events, m, trace[..last]);
      PlayMore(w, events', m.(s := Exec(m.s, trace[..last]).value), Call(trace[last].0, trace[last].1));
      events' := events' + [Call(trace[last].0, trace[last].1)];
    }
  }

  /** An idle thread enters the critical section, by the first two steps of an open. */
  lemma Enter(w: World, events: seq<Event>, m: World, t: Tid) returns (events': seq<Event>, m': World)
    requires Play(w, events) == Some(m) && t in m.s.threads && m.s.threads[t].Idle? && m.s.sem > 0
    ensures events <= events' && Play(w, events') == Some(m')
    ensures m' == m.(s := m.s.(threads := m.s.threads[t := Open({}, OpenHeld)], sem := m.s.sem - 1))
  {
    hide Exec, Play;
    var trace, s := EnterRun(m.s, t, {});
    events' := PlaysExec(w, events, m, trace);
    m' := m.(s := s);
  }

  predicate Ready(s: State, t: Tid) { t in s.threads && (s.threads[t].Idle? || Holding(s.threads[t])) }

  lemma InsideTogether(s: State, t: Tid, u: Tid)
    requires t in Holders(s) && u in Holders(s) && t != u
    ensures |Holders(s)| > 1
  {
    assert {t, u} <= Holders(s);
    var rest := Holders(s) - {t, u};
    assert Holders(s) == rest + {t, u};
  }

  /** Once more polls were interrupted than granted, any two threads that are between calls or
      inside already suffice: some continuation has two inside at once. */
  lemma TwoInsideIf(size: nat, tids: set<Tid>, events: seq<Event>, w: World, t: Tid, u: Tid)
    requires size > 0 && Play(Start(size, tids), events) == Some(w) && w.interrupted > w.granted
    requires t != u && Ready(w.s, t) && Ready(w.s, u)
    ensures exists more: seq<Event> ::
      events <= more && Play(Start(size, tids), more).Some? && |Holders(Play(Start(size, tids), more).value.s)| > 1
  {
    hide Holding, Play, Next;
    PollAccounting(size, tids, events, w);
    var more, m := events, w;
    if |Holders(w.s)| <= 1 {
      if w.s.threads[t].Idle? {
        more, m := Enter(Start(size, tids), more, m, t);
      }
      assert t in Holders(m.s) by { Opener({}); }
      PollAccounting(size, tids, more, m);
      if |Holders(m.s)| <= 1 {
        if u in Holders(m.s) { InsideTogether(m.s, t, u); }
        more, m := Enter(Start(size, tids), more, m, u);
        assert t in Holders(m.s) && u in Holders(m.s) by { Opener({}); }
        InsideTogether(m.s, t, u);
      }
    }
    assert events <= more;
  }

  lemma Opener(f: set<Flag>)
    ensures Holding(Open(f, OpenHeld))
  {
  }

  // ----- in between: polls that do no harm

  /** At no moment were more polls interrupted than granted. */
  predicate NeverAhead(w: World, events: seq<Event>) {
    forall k :: 0 <= k <= |events| && Play(w, events[..k]).Some? ==>
      Play(w, events[..k]).value.interrupted <= Play(w, events[..k]).value.granted
  }

  /** As long as interrupted polls are never ahead of granted ones, at most one thread is inside,
      and therefore order, lifetime and wakeups are as without polls. */
  lemma {:induction false} SafeWithPolls(size: nat, tids: set<Tid>, events: seq<Event>, w: World)
    requires size > 0 && Play(Start(size, tids), events) == Some(w) && NeverAhead(Start(size, tids), events)
    ensures |Holders(w.s)| <= 1 && Sound(w.s)
  {
    hide Sound, Step;
    PollAccounting(size, tids, events, w);
    assert NeverAhead(Start(size, tids), events) && Play(Start(size, tids), events[..|events|]) == Some(w) by {
      assert events[..|events|] == events;
    }
    if events == [] {
      InitInv(size, tids);
    } else {
      var last := |events| - 1;
      var m := Play(Start(size, tids), events[..last]).value;
      assert forall k :: 0 <= k <= last ==> events[..last][..k] == events[..k];
      SafeWithPolls(size, tids, events[..last], m);
      if events[last].Call? {
        StepKeepsSound(m.s, events[last].t, events[last].a);
      } else {
        SoundWithoutSem(m.s, w.s.sem);
      }
    }
  }

  /** None of it is about the semaphore's value. */
  lemma SoundWithoutSem(s: State, sem: nat)
    requires Sound(s)
    ensures Sound(s.(sem := sem))
  {
    hide Step;
    var s' := s.(sem := sem);
    assert forall pc :: UseOk(s, pc) ==> UseOk(s', pc);
    assert forall h :: BeingReleased(s, h) ==> BeingReleased(s', h);
    assert SomeoneBetween(s) == SomeoneBetween(s');
    assert WriterPending(s) == WriterPending(s') && ReaderPending(s) == ReaderPending(s');
    forall t | t in s.threads
      ensures ReaderSafe(s', s.threads[t]) && WriterSafe(s', s.threads[t])
      ensures MayWait(s', s.threads[t]) && Knows(s', s.threads[t])
    {
      assert ReaderSafe(s, s.threads[t]) && WriterSafe(s, s.threads[t]);
      assert MayWait(s, s.threads[t]) && Knows(s, s.threads[t]);
    }
  }

  // ----- two inside: what the semaphore is for

  /** Thread `t`, reading one byte, up to the point where it has copied it. */
  lemma CopyRun(s0: State, t: Tid, h: Hid) returns (trace: seq<(Tid, Action)>, s: State)
    requires t in s0.threads && s0.threads[t].Idle? && s0.sem > 0
    requires h in s0.handles && s0.handles[h].status.Live? && s0.handles[h].Reads()
    requires s0.alloc && s0.ring.Ok() && !s0.ring.Empty()
    ensures Exec(s0, trace) == Some(s)
    ensures s == s0.(threads := s0.threads[t := Read(h, ReadMove([s0.ring.buf[s0.ring.rp]]))], sem := s0.sem - 1)
  {
    hide StepOpen, StepRelease, HeldWrite, WaitWrite;
    trace, s := [], s0;
    ExecMore(s0, trace, s, t, BeginRead(h, 1));
    trace, s := trace + [(t, BeginRead(h, 1))], Step(s, t, BeginRead(h, 1)).value;
    ExecMore(s0, trace, s, t, Down);
    trace, s := trace + [(t, Down)], Step(s, t, Down).value;
    ExecMore(s0, trace, s, t, Go);
    trace, s := trace + [(t, Go)], Step(s, t, Go).value;
    ExecMore(s0, trace, s, t, Go);
    trace, s := trace + [(t, Go)], Step(s, t, Go).value;
    assert s0.ring.buf[s0.ring.rp .. s0.ring.rp + 1] == [s0.ring.buf[s0.ring.rp]];
    assert s.threads == s0.threads[t := Read(h, ReadMove([s0.ring.buf[s0.ring.rp]]))];
  }

  lemma MoveStep(s: State, t: Tid, h: Hid, bytes: seq<Byte>)
    requires t in s.threads && s.threads[t] == Read(h, ReadMove(bytes))
    ensures Step(s, t, Go) == Some(At(s, t, Read(h, ReadUp(bytes))).(
              ring := s.ring.Past(|bytes|), consumed := s.consumed + bytes))
  {
  }

  /** Two threads inside read copy the same byte, and both deliver it. */
  lemma TwiceRun(s0: State, t: Tid, u: Tid, h: Hid) returns (trace: seq<(Tid, Action)>, s: State)
    requires t != u && t in s0.threads && s0.threads[t].Idle? && u in s0.threads && s0.threads[u].Idle?
    requires s0.sem > 1 && s0.alloc && s0.ring.Ok() && !s0.ring.Empty()
    requires h in s0.handles && s0.handles[h].status.Live? && s0.handles[h].Reads()
    ensures Exec(s0, trace) == Some(s) && Twice(s0, s, t, u, h)
  {
    hide Exec, Step;
    var b := s0.ring.buf[s0.ring.rp];
    trace, s := CopyRun(s0, t, h);
    var more, s2 := CopyRun(s, u, h);
    ExecConcat(s0, trace, more);
    trace := trace + more;
    assert s2.threads[t] == Read(h, ReadMove([b])) == s2.threads[u];
    ExecMore(s0, trace, s2, t, Go);
    MoveStep(s2, t, h, [b]);
    trace, s := trace + [(t, Go)], Step(s2, t, Go).value;
    ExecMore(s0, trace, s, u, Go);
    MoveStep(s, u, h, [b]);
    trace, s := trace + [(u, Go)], Step(s, u, Go).value;
  }

  /** The oldest queued byte is on its way to the users of both threads. */
  predicate Twice(s0: State, s: State, t: Tid, u: Tid, h: Hid)
    requires s0.ring.Ok()
  {
    var b := s0.ring.buf[s0.ring.rp];
    && t in s.threads && s.threads[t] == Read(h, ReadUp([b]))
    && u in s.threads && s.threads[u] == Read(h, ReadUp([b]))
    && s.alloc == s0.alloc && s.written == s0.written && s.consumed == s0.consumed + [b] + [b]
  }

  /** The order does rest on the semaphore: with nobody inside, a byte queued and more polls
      interrupted than granted, two idle threads and a handle to read from suffice for a
      continuation in which that byte is delivered twice. */
  lemma DeliveredTwice(size: nat, tids: set<Tid>, events: seq<Event>, w: World, t: Tid, u: Tid, h: Hid)
    returns (more: seq<Event>, w': World)
    requires size > 0 && Play(Start(size, tids), events) == Some(w) && w.interrupted > w.granted
    requires Holders(w.s) == {} && w.s.alloc && w.s.ring.Ok() && !w.s.ring.Empty()
    requires t != u && t in w.s.threads && w.s.threads[t].Idle? && u in w.s.threads && w.s.threads[u].Idle?
    requires h in w.s.handles && w.s.handles[h].status.Live? && w.s.handles[h].Reads()
    ensures events <= more && Play(Start(size, tids), more) == Some(w') && Twice(w.s, w'.s, t, u, h)
  {
    hide Play, Exec;
    PollAccounting(size, tids, events, w);
    var trace, s := TwiceRun(w.s, t, u, h);
    more := PlaysExec(Start(size, tids), events, w, trace);
    w' := w.(s := s);
  }

  /** The buffer's lifetime rests on it, too: if someone is inside together with an opener that has
      just found the buffer, a last release frees it and the opener's handle has none. */
  lemma FreedRun(s0: State) returns (trace: seq<(Tid, Action)>, s: State)
    requires 0 in s0.threads && s0.threads[0].Idle? && 1 in s0.threads && s0.threads[1] == Open({}, OpenHeld)
    requires s0.sem > 0 && s0.alloc && Counts(s0) && s0.handles.Keys == {0} && s0.handles[0].status.Live?
    requires !Busy(s0, 0)
    ensures Exec(s0, trace) == Some(s) && s.handles == map[1 := Handle({}, Live)] && !s.alloc
  {
    hide StepIdle, StepRelease, HeldRead, HeldWrite, WaitRead, WaitWrite;
    trace, s := [], s0;
    ExecMore(s0, trace, s, 1, Kmalloc(None));
    trace, s := trace + [(1, Kmalloc(None))], Step(s, 1, Kmalloc(None)).value;
    var s1 := s;
    assert !Busy(s1, 0);
    var more;
    more, s := ReleaseRun(s1, 0, 0);
    ExecConcat(s0, trace, more);
    trace := trace + more;
    OnlyHandle(s0);
    ExecMore(s0, trace, s, 1, Counted(1));
    trace, s := trace + [(1, Counted(1))], Step(s, 1, Counted(1)).value;
  }

  lemma OnlyHandle(s: State)
    requires Counts(s) && s.handles.Keys == {0}
    ensures s.nreaders == (if s.handles[0].Reads() then 1 else 0)
    ensures s.nwriters == (if s.handles[0].Writes() then 1 else 0)
  {
    assert Readers(s.handles) == if s.handles[0].Reads() then {0} else {};
    assert Writers(s.handles) == if s.handles[0].Writes() then {0} else {};
  }

  // ----- the faults do occur

  predicate Plays(events: seq<Event>, w: World) { Play(Start(2, {0, 1}), events) == Some(w) }

  /** Thread 0 has opened the device for reading and writing; thread 1 has called nothing. */
  lemma OpenedPlay() returns (events: seq<Event>, w: World)
    ensures Plays(events, w) && w == World(Opened(Init(2, {0, 1}).(sem := 0), 0, {RdWr}, 0), 0, 0)
  {
    hide Exec;
    var trace, s := OpenedRun({0, 1}, {RdWr});
    var start := Start(2, {0, 1});
    assert Play(start, []) == Some(start);
    events := PlaysExec(start, [], start, trace);
    w := World(s, 0, 0);
  }

  lemma PollCanStick()
    ensures exists events: seq<Event>, w: World :: Plays(events, w) && Stuck(w.s)
  {
    hide Play;
    var events, w := OpenedPlay();
    PlayMore(Start(2, {0, 1}), events, w, PollGranted(0, 0));
    events, w := events + [PollGranted(0, 0)], Next(w, PollGranted(0, 0)).value;
    StuckIff(2, {0, 1}, events, w);
    assert Plays(events, w);
  }

  /** Thread 1 is inside open when a poll of thread 0, waiting for it, is interrupted. */
  lemma AheadPlay(events: seq<Event>, w: World) returns (events': seq<Event>, w': World)
    requires Plays(events, w) && w.s.sem == 1 && CanPoll(w.s, 0, 0) && 1 in w.s.threads && w.s.threads[1].Idle?
    ensures Plays(events', w') && w'.granted == w.granted && w'.interrupted == w.interrupted + 1
    ensures w'.s == w.s.(threads := w.s.threads[1 := Open({}, OpenHeld)])
  {
    hide Play;
    events', w' := Enter(Start(2, {0, 1}), events, w, 1);
    PlayMore(Start(2, {0, 1}), events', w', PollInterrupted(0, 0));
    events', w' := events' + [PollInterrupted(0, 0)], Next(w', PollInterrupted(0, 0)).value;
  }

  lemma PollCanAdmitTwo()
    ensures exists events: seq<Event>, w: World :: Plays(events, w) && |Holders(w.s)| > 1
  {
    hide Play;
    var events, w := OpenedPlay();
    events, w := AheadPlay(events, w);
    TwoInsideIf(2, {0, 1}, events, w, 0, 1);
    var more :| events <= more && Play(Start(2, {0, 1}), more).Some?
      && |Holders(Play(Start(2, {0, 1}), more).value.s)| > 1;
    assert Plays(more, Play(Start(2, {0, 1}), more).value);
  }

  /** One byte is written; one poll is interrupted while thread 1 opens; then both threads read it. */
  lemma PollCanDeliverTwice()
    ensures exists events: seq<Event>, w: World :: Plays(events, w) && w.s.alloc && |w.s.consumed| > |w.s.written|
  {
    hide Play, Exec;
    var start := Start(2, {0, 1});
    var events, w := OpenedPlay();
    var trace, s := WriteRun(w.s, 0, 0, 7);
    events := PlaysExec(start, events, w, trace);
    w := w.(s := s);
    events, w := AheadPlay(events, w);
    trace, s := OpenRun(w.s, 1, {}, 1);
    events := PlaysExec(start, events, w, trace);
    w := w.(s := s);
    assert Holders(w.s) == {};
    var more, w' := DeliveredTwice(2, {0, 1}, events, w, 0, 1, 0);
    assert Plays(more, w');
  }

  /** Thread 1 is inside open, a poll is interrupted, thread 0 closes the only handle. */
  lemma PollCanFreeUnderOpener()
    ensures exists events: seq<Event>, w: World, h: Hid ::
      Plays(events, w) && h in w.s.handles && w.s.handles[h].status.Live? && w.s.handles[h].HasMode() && !w.s.alloc
  {
    hide Play, Exec;
    var events, w := OpenedPlay();
    events, w := AheadPlay(events, w);
    assert Readers(w.s.handles) == {0} == Writers(w.s.handles);
    var trace, s := FreedRun(w.s);
    events := PlaysExec(Start(2, {0, 1}), events, w, trace);
    assert Plays(events, w.(s := s)) && 1 in s.handles;
  }
}
