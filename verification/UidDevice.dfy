/** The uid-owned device: one owner at a time, further opens by the owner or a privileged process. */
module UidDevice {
  import opened Kernel

  type Uid = nat
  type Hid = nat

  /** The credentials of a process: real and effective uid, CAP_DAC_OVERRIDE. */
  datatype Cred = Cred(uid: Uid, euid: Uid, override: bool)

  predicate Authorised(owner: Uid, c: Cred) { owner == c.uid || owner == c.euid || c.override }

  /** The counter and owner, with the handles that are open and who opened them. */
  datatype Ownership = Ownership(count: int, owner: Uid, handles: map<Hid, Cred>)

  /** Some handle is open iff the count is positive, and every opener may use the owner's device. */
  predicate Safe(s: Ownership) {
    && s.count == |s.handles|
    && forall h :: h in s.handles ==> Authorised(s.owner, s.handles[h])
  }

  predicate MayOpen(s: Ownership, c: Cred) { s.count == 0 || Authorised(s.owner, c) }

  function Opened(s: Ownership, h: Hid, c: Cred): Ownership {
    Ownership(s.count + 1, if s.count == 0 then c.uid else s.owner, s.handles[h := c])
  }

  function Released(s: Ownership, h: Hid): Ownership {
    Ownership(s.count - 1, if s.count == 1 then 0 else s.owner, s.handles - {h})
  }

  lemma OpenedIsSafe(s: Ownership, h: Hid, c: Cred)
    requires Safe(s) && h !in s.handles && MayOpen(s, c)
    ensures Safe(Opened(s, h, c))
  {
    assert s.handles[h := c].Keys == s.handles.Keys + {h};
    assert s.count == 0 ==> s.handles == map[];
  }

  lemma ReleasedIsSafe(s: Ownership, h: Hid)
    requires Safe(s) && h in s.handles
    ensures Safe(Released(s, h))
  {
    assert (s.handles - {h}).Keys == s.handles.Keys - {h};
    assert |s.handles - {h}| == |s.handles| - 1;
    assert s.count == 1 ==> s.handles - {h} == map[];
  }

  class ScullU {
    var count: int
    var owner: Uid
    ghost var handles: map<Hid, Cred>

    ghost function State(): Ownership
      reads this
    {
      Ownership(count, owner, handles)
    }

    constructor ()
      ensures State() == Ownership(0, 0, map[]) && Safe(State())
    {
      count, owner, handles := 0, 0, map[];
    }

    /** scull_u_open, under its spinlock. Fails exactly when the device is open and its owner is
        neither the real nor the effective uid of the process, which cannot override that either;
        whoever opens an idle device owns it under his real uid. */
    method Open(c: Cred, ghost h: Hid) returns (e: Option<Errno>)
      requires Safe(State()) && h !in handles
      modifies this
      ensures Safe(State())
      ensures e == if old(count) > 0 && old(owner) !in {c.uid, c.euid} && !c.override then Some(EBUSY) else None
      ensures e.None? ==> owner == if old(handles) == map[] then c.uid else old(owner)
      ensures e.None? ==> count == old(count) + 1 && handles == old(handles)[h := c]
      ensures State() == if e.None? then Opened(old(State()), h, c) else old(State())
    {
      if count > 0 && owner != c.uid && owner != c.euid && !c.override {
        return Some(EBUSY);
      }
      OpenedIsSafe(State(), h, c);
      if count == 0 {
        owner := c.uid;
      }
      count := count + 1;
      handles := handles[h := c];
      e := None;
    }

    /** scull_u_release, under its spinlock. */
    method Release(ghost h: Hid)
      requires Safe(State()) && h in handles
      modifies this
      ensures Safe(State()) && State() == Released(old(State()), h)
      ensures handles == old(handles) - {h} && owner == if handles == map[] then 0 else old(owner)
    {
      ReleasedIsSafe(State(), h);
      assert |handles| == 1 <==> handles - {h} == map[];
      count := count - 1;
      if count == 0 {
        owner := 0;
      }
      handles := handles - {h};
    }
  }

  // ----- every run

  datatype Action = Open(h: Hid, c: Cred) | Release(h: Hid)

  /** A refused open changes nothing; handle numbers of open handles are not reused. */
  function Step(s: Ownership, a: Action): Ownership {
    match a
    case Open(h, c) => if h !in s.handles && MayOpen(s, c) then Opened(s, h, c) else s
    case Release(h) => if h in s.handles then Released(s, h) else s
  }

  function Exec(s: Ownership, run: seq<Action>): Ownership {
    if run == [] then s else Step(Exec(s, run[..|run| - 1]), run[|run| - 1])
  }

  const AllClosed: Ownership := Ownership(0, 0, map[])

  /** The real uid of the process whose open found no handle open, the last time that happened. */
  function FirstOpener(run: seq<Action>): Uid {
    if run == [] then 0
    else
      var before, a := run[..|run| - 1], run[|run| - 1];
      if a.Open? && Exec(AllClosed, before).handles == map[] then a.c.uid else FirstOpener(before)
  }

  /** Over every run: the owner of an open device is the real uid of the process whose open found
      it idle, whoever has opened and closed it since; an idle device has no owner. */
  lemma {:induction false} OwnerIsFirstOpener(run: seq<Action>)
    ensures var s := Exec(AllClosed, run); s.owner == if s.handles == map[] then 0 else FirstOpener(run)
  {
    if run != [] {
      var before, a := run[..|run| - 1], run[|run| - 1];
      var s := Exec(AllClosed, before);
      OwnerIsFirstOpener(before);
      OwnershipSafety(before);
      OwnershipSafety(run);
      assert s.count == 0 <==> s.handles == map[];
      if s.handles != map[] && Step(s, a).handles != map[] { StepKeepsOwner(s, a); }
    }
  }

  /** Who is let in after any run, in terms of that run alone: everyone if no handle is open, else
      who is or acts as the first opener, or overrides. Being let in adds the handle, and a refused
      process leaves no trace. */
  lemma LetInIff(run: seq<Action>, h: Hid, c: Cred)
    requires h !in Exec(AllClosed, run).handles
    ensures var open, first := Exec(AllClosed, run).handles, FirstOpener(run);
      Exec(AllClosed, run + [Open(h, c)]).handles
        == if open == map[] || c.uid == first || c.euid == first || c.override then open[h := c] else open
    ensures h !in Exec(AllClosed, run + [Open(h, c)]).handles ==> Exec(AllClosed, run + [Open(h, c)]) == Exec(AllClosed, run)
  {
    OwnerIsFirstOpener(run);
    OwnershipSafety(run);
    assert (run + [Open(h, c)])[..|run|] == run;
    assert Exec(AllClosed, run).count == 0 <==> Exec(AllClosed, run).handles == map[];
  }

  /** Over every run: the count is the number of open handles, all of them opened by processes
      authorised against the present owner. */
  lemma {:induction false} OwnershipSafety(run: seq<Action>)
    ensures var s := Exec(AllClosed, run);
      && Safe(s) && s.count == |s.handles|
      && forall h :: h in s.handles ==>
           s.owner == s.handles[h].uid || s.owner == s.handles[h].euid || s.handles[h].override
  {
    if run != [] {
      OwnershipSafety(run[..|run| - 1]);
      var s, a := Exec(AllClosed, run[..|run| - 1]), run[|run| - 1];
      match a {
        case Open(h, c) => if h !in s.handles && MayOpen(s, c) { OpenedIsSafe(s, h, c); }
        case Release(h) => if h in s.handles { ReleasedIsSafe(s, h); }
      }
    }
  }

  /** As long as some handle stays open, the owner stays: along every stretch of a run whose
      intermediate states all have an open handle, it is the same. */
  lemma {:induction false} OwnerStays(s: Ownership, run: seq<Action>)
    requires Safe(s)
    requires forall k :: 0 <= k <= |run| ==> Exec(s, run[..k]).handles != map[]
    ensures Exec(s, run).owner == s.owner && Safe(Exec(s, run))
  {
    assert run[..|run|] == run;
    if run != [] {
      var before := run[..|run| - 1];
      forall k | 0 <= k <= |before|
        ensures Exec(s, before[..k]).handles != map[]
      {
        assert before[..k] == run[..k];
      }
      OwnerStays(s, before);
      StepKeepsOwner(Exec(s, before), run[|run| - 1]);
    }
  }

  lemma StepKeepsOwner(s: Ownership, a: Action)
    requires Safe(s) && s.handles != map[] && Step(s, a).handles != map[]
    ensures Step(s, a).owner == s.owner && Safe(Step(s, a))
  {
    assert s.count > 0 by { assert |s.handles| > 0; }
    match a {
      case Open(h, c) => if h !in s.handles && MayOpen(s, c) { OpenedIsSafe(s, h, c); }
      case Release(h) =>
        if h in s.handles {
          ReleasedIsSafe(s, h);
          assert |Step(s, a).handles| > 0;
        }
    }
  }
}
