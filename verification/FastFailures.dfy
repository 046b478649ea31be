/** Failures that leave a rule without resetting its copy: what they leave, a program
    whose cycle goes wrong for it, and one with the same rules whose cycles do not. */
module FastFailures {
  import opened BitVectors
  import opened Primitives
  import opened Syntax
  import opened Logs
  import opened Semantics
  import opened Histories
  import opened Emission
  import opened Cuttlesim
  import opened SimulatorSync
  import opened Stops
  import opened EmissionCorrectness
  import opened SimulatorCorrectness

  // ----- skipping the reset -----

  /** Leaving a rule without a reset is the same as resetting exactly when every port-1
      read recorded in a register that the reset would restore was already recorded
      in the cycle's copy. */
  lemma {:induction false} FastFailExact(pt: Point, h: HistoryMap, l: Log, st: State)
    requires pt.Valid() && pt.At(h, l, st) && MayFailFast(h) && WellShaped(pt.ru.kinds, st)
    ensures var rf := RwFootprint(pt.ru.kinds, pt.ru.hf);
            st == Reset(pt.ru.kinds, pt.ru.hf, st) <==>
            forall i: nat | i < |pt.r| && Records(pt.ru.kinds[i]) && (Large(rf, |pt.r|) || i in rf) ::
              HasRead(l[i], P1) || i in pt.Z ==> HasRead(pt.L[i], P1) || i in pt.Y
  {
    hide Large;
    var (kinds, rf) := (pt.ru.kinds, RwFootprint(pt.ru.kinds, pt.ru.hf));
    var res := Reset(kinds, pt.ru.hf, st);
    forall i: nat | i < |pt.r|
      ensures st.log.state[i] == st.total.state[i]
      ensures st.log.rwset[i] == st.total.rwset[i] <==>
              (Records(kinds[i]) ==> (HasRead(l[i], P1) || i in pt.Z ==> HasRead(pt.L[i], P1) || i in pt.Y))
    {
      SameBits(pt, h, l, st, i);
    }
    assert st.log.state == st.total.state && res.log.state == st.log.state;
    assert res.log.rwset == st.log.rwset <==>
           forall i: nat | i < |pt.r| && (Large(rf, |pt.r|) || i in rf) :: st.log.rwset[i] == st.total.rwset[i] by {
      RestoresNothing(st.log.rwset, st.total.rwset, rf);
    }
  }

  lemma {:induction false} RestoresNothing<T>(dst: seq<T>, src: seq<T>, footprint: set<nat>)
    requires |dst| == |src|
    ensures Copy(dst, src, footprint) == dst <==>
            forall i: nat | i < |dst| && (Large(footprint, |dst|) || i in footprint) :: dst[i] == src[i]
  {
    var c := Copy(dst, src, footprint);
    if c == dst {
      forall i: nat | i < |dst| && (Large(footprint, |dst|) || i in footprint) ensures dst[i] == src[i] { assert c[i] == dst[i]; }
    }
  }

  lemma {:induction false} SameBits(pt: Point, h: HistoryMap, l: Log, st: State, i: nat)
    requires pt.Valid() && pt.At(h, l, st) && MayFailFast(h) && WellShaped(pt.ru.kinds, st) && i < |pt.r|
    ensures st.log.state[i] == st.total.state[i]
    ensures st.log.rwset[i] == st.total.rwset[i] <==>
            (Records(pt.ru.kinds[i]) ==> (HasRead(l[i], P1) || i in pt.Z ==> HasRead(pt.L[i], P1) || i in pt.Y))
  {
    var k := pt.ru.kinds[i];
    NotDescribed(h, l, pt.L, i);
    AppLaws(l[i], pt.L[i]);
    assert App(l, pt.L)[i] == l[i] + pt.L[i];
    assert Tracks(k, st.log.rwset[i], App(l, pt.L)[i], i in pt.Z);
    assert Tracks(k, st.total.rwset[i], pt.L[i], i in pt.Y);
  }

  /** Reads without writes that a history with no writes allows. */
  function ReadsOf(h: History): RLog {
    (if h.r0 == TFalse then [] else [Rd(P0)]) + (if h.r1 == TFalse then [] else [Rd(P1)])
  }

  function StateOf(kinds: seq<Kind>, r: RegFile, es: Log): LogT
    requires |kinds| == |r| == |es|
  {
    LogT(seq(|r|, i requires 0 <= i < |r| =>
           match kinds[i]
           case Value => NoSet
           case Register => RegSet(HasWrite(es[i], P0))
           case Wire => WireSet(HasRead(es[i], P1), HasWrite(es[i], P0))
           case EHR => EhrSet(HasRead(es[i], P1), HasWrite(es[i], P0), HasWrite(es[i], P1))),
         seq(|r|, i requires 0 <= i < |r| => Default(Latest(es[i]), r[i])))
  }

  lemma StateOfMirrors(kinds: seq<Kind>, r: RegFile, es: Log)
    requires |kinds| == |r| == |es|
    ensures Mirrors(kinds, StateOf(kinds, r, es), r, es, {}) && Shaped(kinds, StateOf(kinds, r, es))
  {
  }

  lemma ReadsOfDescribed(h: History)
    requires h.w0 == TFalse && h.w1 == TFalse
    ensures Describes(h, ReadsOf(h)) && (h.r1 != TFalse ==> HasRead(ReadsOf(h), P1))
  {
    if h.r1 != TFalse { assert ReadsOf(h)[|ReadsOf(h)| - 1] == Rd(P1); }
    if h.r0 != TFalse { assert ReadsOf(h)[0] == Rd(P0); }
  }

  /** Where the annotation admits a recorded read, some state that it allows at the
      start of a cycle keeps that read. */
  lemma {:induction false} LeavesSomething(pt: Point, h: HistoryMap) returns (l: Log, st: State)
    requires pt.Valid() && pt.L == Empty(|pt.r|) && pt.Z == {} && |h| == |pt.r| && BelowAll(h, pt.ru.hf)
    requires MayFailFast(h) && FastLeft(pt.ru.kinds, h) != {}
    ensures pt.At(h, l, st) && WellShaped(pt.ru.kinds, st)
    ensures st != Reset(pt.ru.kinds, pt.ru.hf, st)
  {
    hide Mirrors, Shaped, KindsFit, AppendMaps, BelowAll, Describes, StateOf, ReadsOf, Reset;
    l := seq(|h|, i requires 0 <= i < |h| => ReadsOf(h[i]));
    AppEmpty(l);
    assert App(l, pt.L) == l;
    st := State(StateOf(pt.ru.kinds, pt.r, l), StateOf(pt.ru.kinds, pt.r, pt.L));
    StateOfMirrors(pt.ru.kinds, pt.r, l);
    StateOfMirrors(pt.ru.kinds, pt.r, pt.L);
    forall i | 0 <= i < |h|
      ensures Describes(h[i], l[i]) && (h[i].r1 != TFalse ==> HasRead(l[i], P1))
    {
      ReadsOfDescribed(h[i]);
    }
    assert pt.Y == {};
    FastFailExact(pt, h, l, st);
    var i :| i in FastLeft(pt.ru.kinds, h);
    LeftIsRestored(pt, h, i);
    assert HasRead(l[i], P1) && !HasRead(pt.L[i], P1);
  }

  lemma {:induction false} LeftIsRestored(pt: Point, h: HistoryMap, i: nat)
    requires pt.Valid() && |h| == |pt.r| && BelowAll(h, pt.ru.hf) && i in FastLeft(pt.ru.kinds, h)
    ensures i < |pt.r| && Records(pt.ru.kinds[i]) && h[i].r1 != TFalse && i in RwFootprint(pt.ru.kinds, pt.ru.hf)
  {
    assert Below(h[i], pt.ru.hf[i]);
  }

  // ----- two rules, two schedulers -----

  /** One rule reads a wire at port 1 and fails; the other one writes it. */
  const ReadThenFail := Bind("x", 1, Read(P1, 0), Fail(0))
  const WriteWire := Write(P0, 0, Cst([true]))

  function WireRules(): Rules { rl => if rl == "read" then ReadThenFail else WriteWire }

  /** The read comes before the write. */
  const ReadWrite := Cons("read", Cons("write", Done))

  /** The read comes after all writes. */
  const WriteWriteRead := Cons("write", Cons("write", Cons("read", Done)))

  const ReadHistory := History(TFalse, TTrue, TFalse, TFalse, TTrue)
  const WriteHistory := History(TFalse, TFalse, TTrue, TFalse, TTrue)

  lemma {:induction false} WireHistories()
    ensures RuleHistories(1, ReadThenFail) == After(EmptyMap(1), Read(P1, 0)) == [ReadHistory]
    ensures RuleHistories(1, WriteWire) == [WriteHistory]
  {
    assert After(EmptyMap(1), Read(P1, 0)) == [ReadHistory];
  }

  lemma {:induction false} ReadWriteKinds()
    ensures Classify(1, WireRules(), ReadWrite) == [Wire]
  {
    WireHistories();
    var H := AppendMaps(EmptyMap(1), RuleHistories(1, ReadThenFail));
    assert H == [History(TFalse, TUnknown, TFalse, TFalse, TTrue)];
    var H' := AppendMaps(H, RuleHistories(1, WriteWire));
    assert H' == [History(TFalse, TUnknown, TUnknown, TFalse, TUnknown)];
    assert SchedulerHistories(WireRules(), H', Done) == H';
    assert SchedulerHistories(WireRules(), H, Cons("write", Done)) == H';
    assert SchedulerHistories(WireRules(), EmptyMap(1), ReadWrite) == H';
  }

  lemma {:induction false} WriteWriteReadKinds()
    ensures Classify(1, WireRules(), WriteWriteRead) == [Wire]
  {
    hide After, Classify;
    WireHistories();
    var H1 := AppendMaps(EmptyMap(1), RuleHistories(1, WriteWire));
    assert H1 == [History(TFalse, TFalse, TUnknown, TFalse, TTrue)];
    var H2 := AppendMaps(H1, RuleHistories(1, WriteWire));
    assert H2 == [History(TFalse, TFalse, TUnknown, TFalse, TUnknown)];
    var H3 := AppendMaps(H2, RuleHistories(1, ReadThenFail));
    assert H3 == [History(TFalse, TUnknown, TUnknown, TFalse, TUnknown)];
    assert SchedulerHistories(WireRules(), H3, Done) == H3;
    assert SchedulerHistories(WireRules(), H2, Cons("read", Done)) == H3;
    assert SchedulerHistories(WireRules(), H1, Cons("write", Cons("read", Done))) == H3;
    assert SchedulerHistories(WireRules(), EmptyMap(1), WriteWriteRead) == H3;
    ClassifyWire(WriteWriteRead, H3);
  }

  lemma {:induction false} ClassifyWire(s: Scheduler, H: HistoryMap)
    requires SchedulerHistories(WireRules(), EmptyMap(1), s) == H == [History(TFalse, TUnknown, TUnknown, TFalse, TUnknown)]
    ensures Classify(1, WireRules(), s) == [Wire]
  {
  }

  lemma {:induction false} WireText()
    ensures ScopedRules(WireRules(), 1)
    ensures SafeRule(ReadThenFail) && SafeRule(WriteWire)
    ensures LeftBy([Wire], EmptyMap(1), ReadThenFail) == {0} && LeftBy([Wire], EmptyMap(1), WriteWire) == {}
  {
    WireHistories();
    assert ["x"] + [] == ["x"];
    assert Port1Writes(Read(P1, 0)) == {};
    assert MayFailFast([ReadHistory]);
    assert FastLeft([Wire], [ReadHistory]) == {0};
  }

  /** A failure may leave a read recorded, and yet every run of this program is right:
      nothing writes the register after it. */
  lemma {:induction false} FastFailHarmless(sigma: ExtFun, r: RegFile, st: State, k: nat)
    requires |r| == 1 && Holds(BackEnd(1, WireRules(), sigma, WriteWriteRead), st, r)
    ensures LeftBy([Wire], EmptyMap(1), WireRules()("read")) == {0} && ScopedRules(WireRules(), 1)
    ensures var sim := BackEnd(1, WireRules(), sigma, WriteWriteRead);
            && WellShaped(sim.kinds, st) && sim.RunsAll(WriteWriteRead)
            && Holds(sim, ExecCycles(sim, WriteWriteRead, st, k), InterpCycles(sigma, WireRules(), WriteWriteRead, r, k))
  {
    hide SafeRule, After, LeftBy, ExecCycles, InterpCycles;
    WireText();
    WireHistories();
    WriteWriteReadKinds();
    assert WireRules()("read") == ReadThenFail && WireRules()("write") == WriteWire;
    assert LeftoversUnwritten([Wire], WireRules(), {} + {} + {}, Cons("read", Done));
    assert LeftoversUnwritten([Wire], WireRules(), {} + {}, Cons("write", Cons("read", Done)));
    assert LeftoversUnwritten([Wire], WireRules(), {}, WriteWriteRead);
    CyclesAgree(WireRules(), sigma, WriteWriteRead, r, st, k);
  }

  const Idle := State(LogT([WireSet(false, false)], [[false]]), LogT([WireSet(false, false)], [[false]]))
  const ReadLeft := State(LogT([WireSet(true, false)], [[false]]), LogT([WireSet(false, false)], [[false]]))

  const ReadCode := Then(Then(ReadInto(Some(0), P1, 0), Skip), Then(FailNow(true), Skip))
  const WriteCode := Then(Skip, WriteReg(P0, 0, Lit([true])))

  lemma {:induction false} WireCode()
    ensures EmitRule(1, ReadThenFail) == ReadCode && EmitRule(1, WriteWire) == WriteCode
  {
    var h := EmptyMap(1);
    WireHistories();
    assert EmitBinding(h, [], 0, "x", Read(P1, 0)).code == Then(ReadInto(Some(0), P1, 0), Skip);
    assert MayFailFast([ReadHistory]);
    assert Emit(h, [], 1, Into(None, 0, false), Cst([true])) == Emitted(Skip, Some(Lit([true])), false, 1);
  }

  /** The failed rule leaves its read recorded. */
  lemma {:induction false} ReadRuns(ru: Rule)
    requires ru.kinds == [Wire] && |ru.hf| == 1
    ensures WellShaped([Wire], Idle) && Compiles(ru.kinds, ReadCode) && RunCode(ru, Idle, map[], ReadCode) == Stopped(ReadLeft)
  {
    hide Copy;
    assert ReadStep(ru, Idle, map[], Some(0), P1, 0) == Running(ReadLeft, map[0 := [false]]);
    assert RunCode(ru, Idle, map[], Then(ReadInto(Some(0), P1, 0), Skip)) == Running(ReadLeft, map[0 := [false]]);
    assert RunCode(ru, ReadLeft, map[0 := [false]], Then(FailNow(true), Skip)) == Stopped(ReadLeft);
  }

  /** The write is then refused. */
  lemma {:induction false} WriteRuns(ru: Rule)
    requires ru.kinds == [Wire] && |ru.hf| == 1
    ensures WellShaped([Wire], ReadLeft) && Compiles(ru.kinds, WriteCode) && RunCode(ru, ReadLeft, map[], WriteCode).Stopped?
  {
    hide Copy;
    assert WriteStep(ru, ReadLeft, map[], P0, 0, [true]).Stopped?;
  }

  lemma {:induction false} ReadWriteRuns(sim: Sim)
    requires sim.kinds == [Wire] && sim.rules == WireRules()
    ensures WellShaped(sim.kinds, Idle) && WellShaped(sim.kinds, ReadLeft)
    ensures sim.Runs("read") && ExecRule(sim, "read", Idle) == (false, ReadLeft)
    ensures sim.Runs("write") && !ExecRule(sim, "write", ReadLeft).0
  {
    hide RunCode, EmitRule;
    WireCode();
    assert sim.rules("read") == ReadThenFail && sim.rules("write") == WriteWire;
    ReadRuns(sim.RuleOf("read"));
    WriteRuns(sim.RuleOf("write"));
  }

  /** In the semantics the failed rule's read is gone and the write happens. */
  lemma {:induction false} ReadWriteMeans(sigma: ExtFun)
    ensures ScopedRules(WireRules(), 1)
    ensures InterpCycle(sigma, WireRules(), ReadWrite, [[false]]) == [[true]]
  {
    var r: RegFile, rules, L := [[false]], WireRules(), Empty(1);
    assert rules("read") == ReadThenFail && rules("write") == WriteWire;
    assert InterpAction(r, sigma, [[false]], L, [[Rd(P1)]], Fail(0)) == Failed;
    assert InterpRule(r, sigma, L, ReadThenFail) == None;
    assert InterpAction(r, sigma, [], L, Empty(1), Cst([true])) == Ok(Empty(1), [true], []);
    assert [Wr(P0, [true])] + [] == [Wr(P0, [true])];
    assert MayWrite(L, Empty(1), P0, 0) && Push(L, 0, Wr(P0, [true])) == [[Wr(P0, [true])]];
    assert InterpRule(r, sigma, L, WriteWire) == Some([[Wr(P0, [true])]]);
    var L' := App([[Wr(P0, [true])]], L);
    assert L' == [[Wr(P0, [true])]];
    assert InterpScheduler(r, sigma, rules, L', Done) == L';
    assert InterpScheduler(r, sigma, rules, L, Cons("write", Done)) == L';
  }

  /** With the read first, the simulator loses the write; all else asked of the text holds. */
  lemma {:induction false} FastFailDiffers(sigma: ExtFun)
    ensures ScopedRules(WireRules(), 1) && SafeRules(WireRules(), ReadWrite)
    ensures InterpCycle(sigma, WireRules(), ReadWrite, [[false]]) == [[true]]
    ensures var sim := BackEnd(1, WireRules(), sigma, ReadWrite);
            && WellShaped(sim.kinds, Idle) && sim.RunsAll(ReadWrite) && Holds(sim, Idle, [[false]])
            && ExecCycle(sim, ReadWrite, Idle).total.state == [[false]]
  {
    hide ExecRule, Classify, InterpCycle, Emit, Sim.Runs, SafeRule;
    ReadWriteMeans(sigma);
    ReadWriteKinds();
    WireText();
    assert WireRules()("read") == ReadThenFail && WireRules()("write") == WriteWire;
    var sim := BackEnd(1, WireRules(), sigma, ReadWrite);
    ReadWriteRuns(sim);
    assert FreshSets(sim.kinds) == [WireSet(false, false)];
    assert StartCycle(sim.kinds, Idle) == Idle;
    assert ExecScheduler(sim, Cons("write", Done), ReadLeft) == ExecRule(sim, "write", ReadLeft).1;
  }
}
