/** Writing a message in pieces and reading it back in pieces. */
module StoreRoundTrip {
  import opened Kernel
  import opened StoreSpec
  import opened StoreFlat

  /** In call number k the user asks for `ask(k) + 1` bytes: any positive counts at all. */
  type Requests = nat -> nat

  /** A program that calls write until the whole message is accepted; None if a call fails. */
  function WriteAll(st: Store, msg: seq<Byte>, pos: nat, ask: Requests, k: nat): (r: Option<Store>)
    requires Ok(st) && pos <= |msg|
    ensures r.Some? ==> Ok(r.value) && r.value.quantum == st.quantum && r.value.qset == st.qset
    decreases |msg| - pos
  {
    if pos == |msg| then Some(st)
    else
      var chunk := msg[pos .. pos + Min(ask(k) + 1, |msg| - pos)];
      var (st', r) := Write(st, pos, chunk, Ample, None);
      if r.Failed? then None
      else
        WriteIsExact(st, pos, chunk, Ample);
        WriteAll(st', msg, pos + r.n, ask, k + 1)
  }

  /** A program that calls read until it gets nothing. */
  function ReadAll(st: Store, pos: nat, ask: Requests, k: nat): (r: seq<Byte>)
    requires Ok(st)
    decreases st.size - pos
  {
    var (st', r) := Read(st, pos, ask(k) + 1, Ample, true);
    ReadIsPure(st, pos, ask(k) + 1, Ample, true);
    if r.bytes == [] then [] else r.bytes + ReadAll(st', pos + |r.bytes|, ask, k + 1)
  }

  /** The device holds exactly the first `pos` bytes of the message. */
  ghost predicate Holds(st: Store, msg: seq<Byte>, pos: nat) {
    && Ok(st) && pos <= |msg| && st.size == pos
    && forall off :: 0 <= off < pos ==> ByteAt(st, off) == Some(msg[off])
  }

  /** The capacity the `int` item number allows. */
  function Limit(quantum: nat, qset: nat): nat { TWO31 * (quantum * qset) }

  lemma BelowLimit(pos: nat, quantum: nat, qset: nat)
    requires quantum > 0 && qset > 0
    ensures pos < Limit(quantum, qset) <==> pos / quantum / qset < TWO31
  {
    TwoLevels(pos, quantum, qset);
    var d := quantum * qset;
    assert pos == pos / d * d + pos % d;
    if pos / d < TWO31 {
      MulMonotone(d, pos / d, TWO31 - 1);
    } else {
      MulMonotone(d, TWO31, pos / d);
    }
  }

  /** A write that starts below the limit ends at it at the latest. */
  lemma StaysBelowLimit(pos: nat, n: nat, quantum: nat, qset: nat)
    requires quantum > 0 && qset > 0 && pos < Limit(quantum, qset) && pos % quantum + n <= quantum
    ensures pos + n <= Limit(quantum, qset)
  {
    var d := quantum * qset;
    TwoLevels(pos, quantum, qset);
    BelowLimit(pos, quantum, qset);
    var rest := pos % d;
    var s := rest / quantum;
    assert rest == s * quantum + pos % quantum;
    DivBelow(rest, quantum, qset);
    assert (s + 1) * quantum <= d by { MulMonotone(quantum, s + 1, qset); }
    assert (pos / d + 1) * d <= TWO31 * d by { MulMonotone(d, pos / d + 1, TWO31); }
    assert pos == pos / d * d + rest;
  }

  /** Below the limit a write lands where the caller says. */
  lemma WriteInRange(st: Store, pos: nat, chunk: seq<Byte>)
    requires Ok(st) && pos < Limit(st.quantum, st.qset)
    ensures var (st', r) := Write(st, pos, chunk, Ample, None);
      && r.Moved? && r.n <= |chunk| && (chunk != [] ==> r.n > 0)
      && pos + r.n <= Limit(st.quantum, st.qset)
      && st'.size == st.size + r.n
      && Overwrites(st, st', pos, chunk[..r.n])
  {
    BelowLimit(pos, st.quantum, st.qset);
    WriteSucceedsIff(st, pos, chunk);
    WriteIsExact(st, pos, chunk, Ample);
    CanonIsIdentityIff(pos, st.quantum, st.qset);
    TwoLevels(pos, st.quantum, st.qset);
    StaysBelowLimit(pos, WriteLen(st, pos, |chunk|), st.quantum, st.qset);
  }

  lemma WriteStep(st: Store, msg: seq<Byte>, pos: nat, chunk: seq<Byte>)
    requires Holds(st, msg, pos) && pos < Limit(st.quantum, st.qset)
    requires chunk != [] && pos + |chunk| <= |msg| && chunk == msg[pos .. pos + |chunk|]
    ensures var (st', r) := Write(st, pos, chunk, Ample, None);
      && r.Moved? && 0 < r.n <= |chunk|
      && pos + r.n <= Limit(st.quantum, st.qset)
      && Holds(st', msg, pos + r.n)
  {
    hide Write, WriteLen, Locate, ByteAt, Limit, GeometryOk, OverwritesAt;
    WriteInRange(st, pos, chunk);
    var (st', r) := Write(st, pos, chunk, Ample, None);
    assert chunk[..r.n] == msg[pos .. pos + r.n];
    ExtendHolds(st, st', msg, pos, r.n);
  }

  lemma ExtendHolds(st: Store, st': Store, msg: seq<Byte>, pos: nat, n: nat)
    requires Holds(st, msg, pos) && Ok(st') && st'.size == pos + n && pos + n <= |msg|
    requires Overwrites(st, st', pos, msg[pos .. pos + n])
    ensures Holds(st', msg, pos + n)
  {
    forall off | 0 <= off < pos + n
      ensures ByteAt(st', off) == Some(msg[off])
    {
      assert OverwritesAt(st, st', pos, msg[pos .. pos + n], off);
    }
  }

  /** The write loop finishes exactly when the message fits the item numbering, and then the
      device holds the message. */
  lemma {:induction false} WriteAllHolds(st: Store, msg: seq<Byte>, pos: nat, ask: Requests, k: nat)
    requires Holds(st, msg, pos) && pos <= Limit(st.quantum, st.qset)
    ensures var r := WriteAll(st, msg, pos, ask, k);
      && (r.Some? <==> |msg| <= Limit(st.quantum, st.qset))
      && (r.Some? ==> Holds(r.value, msg, |msg|))
    decreases |msg| - pos
  {
    hide Write, WriteLen, Locate, ByteAt, Limit, GeometryOk;
    if pos < |msg| {
      var chunk := msg[pos .. pos + Min(ask(k) + 1, |msg| - pos)];
      if pos < Limit(st.quantum, st.qset) {
        WriteStep(st, msg, pos, chunk);
        var (st', r) := Write(st, pos, chunk, Ample, None);
        WriteAllHolds(st', msg, pos + r.n, ask, k + 1);
      } else {
        AtTheLimit(st, pos, chunk);
      }
    }
  }

  lemma AtTheLimit(st: Store, pos: nat, chunk: seq<Byte>)
    requires Ok(st) && pos == Limit(st.quantum, st.qset)
    ensures Write(st, pos, chunk, Ample, None).1.Failed?
  {
    WriteSucceedsIff(st, pos, chunk);
    MulPositive(st.quantum, st.qset);
    DivModUnique(pos, st.quantum * st.qset, TWO31, 0);
  }

  lemma ReadStep(st: Store, msg: seq<Byte>, pos: nat, count: nat)
    requires Holds(st, msg, |msg|) && |msg| <= Limit(st.quantum, st.qset) && pos < |msg| && count > 0
    ensures var (st', r) := Read(st, pos, count, Ample, true);
      && r.Got? && r.bytes != [] && pos + |r.bytes| <= |msg|
      && r.bytes == msg[pos .. pos + |r.bytes|]
      && Holds(st', msg, |msg|) && st'.quantum == st.quantum && st'.qset == st.qset
  {
    ReadIsPure(st, pos, count, Ample, true);
    BelowLimit(pos, st.quantum, st.qset);
    CanonIsIdentityIff(pos, st.quantum, st.qset);
    WriteSucceedsIff(st, pos, []);
    assert ByteAt(st, pos).Some?;
    var (st', r) := Read(st, pos, count, Ample, true);
    forall j | 0 <= j < |r.bytes|
      ensures r.bytes[j] == msg[pos + j]
    {
      assert ByteAt(st, pos + j) == Some(r.bytes[j]);
    }
  }

  lemma ReadAtEnd(st: Store, pos: nat, count: nat)
    requires Ok(st) && pos >= st.size
    ensures Read(st, pos, count, Ample, true) == (st, Got([]))
  {
  }

  lemma JoinSlices(msg: seq<Byte>, pos: nat, n: nat)
    requires pos + n <= |msg|
    ensures msg[pos .. pos + n] + msg[pos + n..] == msg[pos..]
  {
  }

  lemma {:induction false} ReadAllReturns(st: Store, msg: seq<Byte>, pos: nat, ask: Requests, k: nat)
    requires Holds(st, msg, |msg|) && |msg| <= Limit(st.quantum, st.qset) && pos <= |msg|
    ensures ReadAll(st, pos, ask, k) == msg[pos..]
    decreases |msg| - pos
  {
    hide Read, Locate, ByteAt, Limit, GeometryOk;
    if pos < |msg| {
      ReadStep(st, msg, pos, ask(k) + 1);
      var (st', r) := Read(st, pos, ask(k) + 1, Ample, true);
      ReadAllReturns(st', msg, pos + |r.bytes|, ask, k + 1);
      JoinSlices(msg, pos, |r.bytes|);
    } else {
      ReadAtEnd(st, pos, ask(k) + 1);
    }
  }

  /** From a trimmed device, with memory and without faults: the write loop completes exactly for
      messages up to 2^31 items, and then reading from 0 returns the message, whatever the
      geometry and however both programs cut their requests. */
  lemma RoundTrip(msg: seq<Byte>, quantum: nat, qset: nat, ask: Requests, ask': Requests)
    requires GeometryOk(quantum, qset)
    ensures var w := WriteAll(Trimmed(quantum, qset), msg, 0, ask, 0);
      && (w.Some? <==> |msg| <= TWO31 * (quantum * qset))
      && (w.Some? ==> ReadAll(w.value, 0, ask', 0) == msg)
  {
    hide Write, Read, Locate, WriteAll, ReadAll;
    var st := Trimmed(quantum, qset);
    assert Holds(st, msg, 0);
    WriteAllHolds(st, msg, 0, ask, 0);
    var w := WriteAll(st, msg, 0, ask, 0);
    if w.Some? {
      ReadAllReturns(w.value, msg, 0, ask', 0);
    }
  }
}
