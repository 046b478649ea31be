/** The alternative undo mechanism: a stack of the registers that a rule touches,
    as byte offsets into the two copies, and copies of just those bytes.  Accesses to
    registers that never conflict are not pushed. */
module DynamicLog {
  newtype byte = x: int | 0 <= x < 256

  /** Where a register's value and its read-write bits are. */
  datatype Offsets = Offsets(stateOffset: nat, stateSz: nat, rwsetOffset: nat, rwsetSz: nat)

  predicate InRange(j: nat, offset: nat, sz: nat) { offset <= j < offset + sz }

  predicate StateCovered(os: seq<Offsets>, j: nat) {
    exists o | o in os :: InRange(j, o.stateOffset, o.stateSz)
  }

  predicate RwsetCovered(os: seq<Offsets>, j: nat) {
    exists o | o in os :: InRange(j, o.rwsetOffset, o.rwsetSz)
  }

  predicate Disjoint(o: Offsets, o': Offsets) {
    o.stateOffset + o.stateSz <= o'.stateOffset || o'.stateOffset + o'.stateSz <= o.stateOffset
  }

  /** `dst` with the bytes from `offset` on replaced by those of `src`. */
  function Copied(dst: seq<byte>, src: seq<byte>, offset: nat, sz: nat): (r: seq<byte>)
    requires |dst| == |src|
    ensures |r| == |dst|
  {
    seq(|dst|, j requires 0 <= j < |dst| => if InRange(j, offset, sz) then src[j] else dst[j])
  }

  /** `dst` with all bytes of the listed registers replaced. */
  function StateApplied(dst: seq<byte>, src: seq<byte>, os: seq<Offsets>): (r: seq<byte>)
    requires |dst| == |src|
    ensures |r| == |dst|
  {
    seq(|dst|, j requires 0 <= j < |dst| => if StateCovered(os, j) then src[j] else dst[j])
  }

  function RwsetApplied(dst: seq<byte>, src: seq<byte>, os: seq<Offsets>): (r: seq<byte>)
    requires |dst| == |src|
    ensures |r| == |dst|
  {
    seq(|dst|, j requires 0 <= j < |dst| => if RwsetCovered(os, j) then src[j] else dst[j])
  }

  /** Copying the listed registers is a full copy exactly when the other bytes agree. */
  lemma {:induction false} AppliedIsFull(dst: seq<byte>, src: seq<byte>, os: seq<Offsets>)
    requires |dst| == |src|
    ensures StateApplied(dst, src, os) == src <==> forall j: nat :: j < |dst| && dst[j] != src[j] ==> StateCovered(os, j)
    ensures RwsetApplied(dst, src, os) == src <==> forall j: nat :: j < |dst| && dst[j] != src[j] ==> RwsetCovered(os, j)
  {
    var (s, r) := (StateApplied(dst, src, os), RwsetApplied(dst, src, os));
    if s == src {
      forall j: nat | j < |dst| && dst[j] != src[j] ensures StateCovered(os, j) { assert s[j] == src[j]; }
    }
    if r == src {
      forall j: nat | j < |dst| && dst[j] != src[j] ensures RwsetCovered(os, j) { assert r[j] == src[j]; }
    }
  }

  /** Where copies differ in listed registers and in `U` only, and `U` is not listed. */
  lemma {:induction false} AppliedOutside(dst: seq<byte>, src: seq<byte>, os: seq<Offsets>, U: set<nat>)
    requires |dst| == |src|
    requires forall j: nat :: j < |dst| && dst[j] != src[j] ==> StateCovered(os, j) || j in U
    requires forall j: nat :: j in U ==> !StateCovered(os, j)
    ensures StateApplied(dst, src, os) == src <==> forall j: nat :: j < |dst| && j in U ==> dst[j] == src[j]
    ensures forall j: nat :: j < |dst| ==> StateApplied(dst, src, os)[j] == if j in U then dst[j] else src[j]
  {
    AppliedIsFull(dst, src, os);
  }

  lemma {:induction false} AppliedSnoc(dst: seq<byte>, src: seq<byte>, os: seq<Offsets>, o: Offsets)
    requires |dst| == |src|
    ensures StateApplied(dst, src, os + [o]) == Copied(StateApplied(dst, src, os), src, o.stateOffset, o.stateSz)
    ensures RwsetApplied(dst, src, os + [o]) == Copied(RwsetApplied(dst, src, os), src, o.rwsetOffset, o.rwsetSz)
  {
    forall j: nat
      ensures StateCovered(os + [o], j) <==> StateCovered(os, j) || InRange(j, o.stateOffset, o.stateSz)
      ensures RwsetCovered(os + [o], j) <==> RwsetCovered(os, j) || InRange(j, o.rwsetOffset, o.rwsetSz)
    {
      assert o in os + [o] && forall o' :: o' in os ==> o' in os + [o];
    }
  }

  method Memcpy(dst: array<byte>, src: array<byte>, offset: nat, sz: nat)
    requires dst != src && dst.Length == src.Length && offset + sz <= dst.Length
    modifies dst
    ensures dst[..] == Copied(old(dst[..]), src[..], offset, sz)
  {
    var k := 0;
    while k < sz
      invariant k <= sz
      invariant dst[..] == Copied(old(dst[..]), src[..], offset, k)
    {
      dst[offset + k] := src[offset + k];
      k := k + 1;
    }
  }

  class Machine {
    const layout: seq<Offsets>
    /** Whether accesses to the register are pushed; one that never conflicts has no
        read-write bits and its accesses are not. */
    const recorded: seq<bool>
    const logState: array<byte>
    const logRwset: array<byte>
    const totalState: array<byte>
    const totalRwset: array<byte>
    const data: array<Offsets>
    var sz: nat

    constructor (layout: seq<Offsets>, recorded: seq<bool>, stateSize: nat, rwsetSize: nat, capacity: nat)
      requires |recorded| == |layout|
      requires forall o :: o in layout ==>
                 o.stateOffset + o.stateSz <= stateSize && o.rwsetOffset + o.rwsetSz <= rwsetSize
      requires forall i, k :: 0 <= i < k < |layout| ==> Disjoint(layout[i], layout[k])
      requires forall i :: 0 <= i < |layout| && !recorded[i] ==> layout[i].rwsetSz == 0
      ensures Valid() && Tracked() && Agree() && Pushed() == []
      ensures this.layout == layout && this.recorded == recorded && data.Length == capacity
      ensures logState.Length == stateSize && logRwset.Length == rwsetSize
      ensures logState[..] == totalState[..] == seq(stateSize, i => 0)
      ensures fresh(logState) && fresh(logRwset) && fresh(totalState) && fresh(totalRwset) && fresh(data)
    {
      this.layout := layout;
      this.recorded := recorded;
      logState := new byte[stateSize](_ => 0);
      totalState := new byte[stateSize](_ => 0);
      logRwset := new byte[rwsetSize](_ => 0);
      totalRwset := new byte[rwsetSize](_ => 0);
      data := new Offsets[capacity](_ => Offsets(0, 0, 0, 0));
      sz := 0;
    }

    ghost predicate Valid()
      reads this, data
    {
      && logState != totalState && logRwset != totalRwset && logState != logRwset && logState != totalRwset
      && totalState != logRwset && totalState != totalRwset
      && logState.Length == totalState.Length && logRwset.Length == totalRwset.Length
      && |recorded| == |layout|
      && (forall o :: o in layout ==>
            o.stateOffset + o.stateSz <= logState.Length && o.rwsetOffset + o.rwsetSz <= logRwset.Length)
      && (forall i, k :: 0 <= i < k < |layout| ==> Disjoint(layout[i], layout[k]))
      && (forall i :: 0 <= i < |layout| && !recorded[i] ==> layout[i].rwsetSz == 0)
      && sz <= data.Length
      && forall i :: 0 <= i < sz ==> IsRecorded(data[i])
    }

    predicate IsRecorded(o: Offsets)
      requires |recorded| == |layout|
    {
      exists k :: 0 <= k < |layout| && recorded[k] && layout[k] == o
    }

    /** The byte belongs to a register whose accesses are not pushed. */
    predicate Unrecorded(j: nat)
      requires |recorded| == |layout|
    {
      exists k :: 0 <= k < |layout| && !recorded[k] && InRange(j, layout[k].stateOffset, layout[k].stateSz)
    }

    /** The registers pushed so far, repetitions included. */
    ghost function Pushed(): seq<Offsets>
      reads this, data
      requires sz <= data.Length
    {
      data[..sz]
    }

    /** The two copies differ in bytes of pushed and of unrecorded registers only. */
    ghost predicate Tracked()
      reads this, data, logState, logRwset, totalState, totalRwset
      requires Valid()
    {
      && (forall j: nat :: j < logState.Length && logState[j] != totalState[j] ==> StateCovered(Pushed(), j) || Unrecorded(j))
      && (forall j: nat :: j < logRwset.Length && logRwset[j] != totalRwset[j] ==> RwsetCovered(Pushed(), j))
    }

    /** Unrecorded registers have the same value in both copies. */
    ghost predicate Agree()
      reads this, data, logState, totalState
      requires Valid()
    {
      forall j: nat :: j < logState.Length && Unrecorded(j) ==> logState[j] == totalState[j]
    }

    ghost function UnrecordedBytes(): (U: set<nat>)
      reads this, data
      requires Valid()
      ensures forall j: nat :: j in U <==> j < logState.Length && Unrecorded(j)
      ensures forall j: nat :: j in U ==> !StateCovered(Pushed(), j)
    {
      set j: nat | j < logState.Length && Unrecorded(j)
    }

    /** An access: a recorded register is pushed first; then its value and bits may change. */
    method Touch(reg: nat, value: array<byte>, bits: array<byte>)
      requires Valid() && Tracked() && reg < |layout| && (recorded[reg] ==> sz < data.Length)
      requires value != logState && value.Length == logState.Length && value != logRwset
      requires bits != logRwset && bits.Length == logRwset.Length && bits != logState
      modifies this`sz, data, logState, logRwset
      ensures Valid() && Tracked()
      ensures Pushed() == old(Pushed()) + if recorded[reg] then [layout[reg]] else []
      ensures logState[..] == Copied(old(logState[..]), value[..], layout[reg].stateOffset, layout[reg].stateSz)
      ensures logRwset[..] == Copied(old(logRwset[..]), bits[..], layout[reg].rwsetOffset, layout[reg].rwsetSz)
    {
      var o := layout[reg];
      ghost var before := Pushed();
      if recorded[reg] {
        data[sz] := o;
        sz := sz + 1;
        assert Pushed() == before + [o];
      }
      assert forall j: nat :: StateCovered(before, j) ==> StateCovered(Pushed(), j);
      assert forall j: nat :: RwsetCovered(before, j) ==> RwsetCovered(Pushed(), j);
      Memcpy(logState, value, o.stateOffset, o.stateSz);
      Memcpy(logRwset, bits, o.rwsetOffset, o.rwsetSz);
      assert forall j: nat :: j < logState.Length ==> logState[..][j] == logState[j];
      assert forall j: nat :: j < logRwset.Length ==> logRwset[..][j] == logRwset[j];
      assert recorded[reg] ==> o in Pushed();
      assert forall j: nat :: InRange(j, o.stateOffset, o.stateSz) ==> StateCovered(Pushed(), j) || Unrecorded(j);
      assert forall j: nat :: InRange(j, o.rwsetOffset, o.rwsetSz) ==> RwsetCovered(Pushed(), j);
    }

    /** Copies the bytes of every pushed register, in order, from one copy to the other. */
    method Apply(dstState: array<byte>, srcState: array<byte>, dstRwset: array<byte>, srcRwset: array<byte>)
      requires Valid()
      requires (dstState, srcState, dstRwset, srcRwset) == (logState, totalState, logRwset, totalRwset) ||
               (dstState, srcState, dstRwset, srcRwset) == (totalState, logState, totalRwset, logRwset)
      modifies dstState, dstRwset
      ensures Valid() && Pushed() == old(Pushed())
      ensures dstState[..] == StateApplied(old(dstState[..]), srcState[..], Pushed())
      ensures dstRwset[..] == RwsetApplied(old(dstRwset[..]), srcRwset[..], Pushed())
    {
      var idx := 0;
      ghost var s, r := dstState[..], dstRwset[..];
      while idx < sz
        invariant idx <= sz && Valid() && Pushed() == old(Pushed())
        invariant dstState[..] == StateApplied(s, srcState[..], Pushed()[..idx])
        invariant dstRwset[..] == RwsetApplied(r, srcRwset[..], Pushed()[..idx])
      {
        var o := data[idx];
        assert Pushed()[..idx + 1] == Pushed()[..idx] + [o];
        AppliedSnoc(s, srcState[..], Pushed()[..idx], o);
        AppliedSnoc(r, srcRwset[..], Pushed()[..idx], o);
        Memcpy(dstRwset, srcRwset, o.rwsetOffset, o.rwsetSz);
        Memcpy(dstState, srcState, o.stateOffset, o.stateSz);
        idx := idx + 1;
      }
      assert Pushed()[..idx] == Pushed();
    }

    /** Failing restores the whole rule copy, and committing completes the whole cycle
        copy, after any accesses and with registers pushed repeatedly, if and only if
        no unrecorded register has a different value in the two copies. */
    method Fail()
      requires Valid() && Tracked()
      modifies logState, logRwset
      ensures Valid() && logRwset[..] == totalRwset[..]
      ensures logState[..] == totalState[..] <==> old(Agree())
      ensures forall j: nat :: j < logState.Length ==> logState[j] == if Unrecorded(j) then old(logState[j]) else totalState[j]
    {
      AppliedOutside(logState[..], totalState[..], Pushed(), UnrecordedBytes());
      AppliedIsFull(logRwset[..], totalRwset[..], Pushed());
      Apply(logState, totalState, logRwset, totalRwset);
    }

    method Commit()
      requires Valid() && Tracked()
      modifies totalState, totalRwset
      ensures Valid() && totalRwset[..] == logRwset[..]
      ensures totalState[..] == logState[..] <==> old(Agree())
      ensures forall j: nat :: j < logState.Length ==> totalState[j] == if Unrecorded(j) then old(totalState[j]) else logState[j]
    {
      AppliedOutside(totalState[..], logState[..], Pushed(), UnrecordedBytes());
      AppliedIsFull(totalRwset[..], logRwset[..], Pushed());
      Apply(totalState, logState, totalRwset, logRwset);
    }
  }

  /** One register that never conflicts is written and the rule commits: the cycle's
      copy keeps the old value. */
  method LostWrite() returns (m: Machine)
    ensures fresh(m) && m.Valid() && m.logState[..] == [1] && m.totalState[..] == [0]
  {
    var o := Offsets(0, 1, 0, 0);
    m := new Machine([o], [false], 1, 0, 1);
    var value, bits := new byte[1](_ => 1), new byte[0];
    m.Touch(0, value, bits);
    assert m.logState[..] == [1];
    assert m.Unrecorded(0);
    m.Commit();
  }
}
