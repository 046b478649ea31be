/** The simulator's two mutable copies of the state, and what emitted code does to
    them: `total` accumulates the cycle (the source's Log), `log` is what the running
    rule works on. */
module Cuttlesim {
  import opened BitVectors
  import opened Primitives
  import opened Syntax
  import opened Logs
  import opened Semantics
  import opened Histories
  import opened Emission

  // ----- read-write sets -----

  /** One register's bits; a register that never conflicts has none. */
  datatype RwSet = NoSet | RegSet(w0: bool) | WireSet(r1: bool, w0: bool) | EhrSet(r1: bool, w0: bool, w1: bool)

  function Fresh(k: Kind): RwSet {
    match k
    case Value => NoSet
    case Register => RegSet(false)
    case Wire => WireSet(false, false)
    case EHR => EhrSet(false, false, false)
  }

  predicate HasShape(k: Kind, s: RwSet) {
    match k
    case Value => s.NoSet?
    case Register => s.RegSet?
    case Wire => s.WireSet?
    case EHR => s.EhrSet?
  }

  /** The accesses whose check exists for a kind; emitted code with any other one
      is refused by the C++ compiler. */
  predicate Supports(k: Kind, e: Access) {
    match k
    case Value => true
    case Register => e.port == P0
    case Wire => e == Reading(P1) || e == Writing(P0)
    case EHR => true
  }

  /** `l` and `L` are the register's sets in `log` and in `total`. */
  predicate MayAccess(e: Access, l: RwSet, L: RwSet)
    requires exists k :: HasShape(k, l) && HasShape(k, L) && Supports(k, e)
  {
    match (e, L)
    case (_, NoSet) => true
    case (Reading(P0), RegSet(w0)) => !w0
    case (Reading(P0), EhrSet(_, w0, w1)) => !(w1 || w0)
    case (Reading(P1), WireSet(_, _)) => true
    case (Reading(P1), EhrSet(_, _, w1)) => !w1
    case (Writing(P0), RegSet(_)) => !l.w0
    case (Writing(P0), WireSet(_, _)) => !(l.r1 || l.w0)
    case (Writing(P0), EhrSet(_, _, _)) => !(l.r1 || l.w0 || l.w1)
    case (Writing(P1), EhrSet(_, _, _)) => !l.w1
  }

  /** What an access records, whether or not it was allowed. */
  function Record(e: Access, l: RwSet): (res: RwSet)
    ensures forall k :: HasShape(k, l) ==> HasShape(k, res)
  {
    match e
    case Reading(P0) => l
    case Reading(P1) => if l.WireSet? || l.EhrSet? then l.(r1 := true) else l
    case Writing(P0) => if l.NoSet? then l else l.(w0 := true)
    case Writing(P1) => if l.EhrSet? then l.(w1 := true) else l
  }

  // ----- the state -----

  datatype LogT = LogT(rwset: seq<RwSet>, state: seq<Bits>)

  datatype State = State(log: LogT, total: LogT)

  predicate Shaped(kinds: seq<Kind>, lg: LogT) {
    |lg.rwset| == |lg.state| == |kinds| && forall i :: 0 <= i < |kinds| ==> HasShape(kinds[i], lg.rwset[i])
  }

  predicate WellShaped(kinds: seq<Kind>, st: State) { Shaped(kinds, st.log) && Shaped(kinds, st.total) }

  /** Every access in the code is one that the C++ compiler accepts. */
  predicate Compiles(kinds: seq<Kind>, c: Code) {
    match c
    case Then(c1, c2) => Compiles(kinds, c1) && Compiles(kinds, c2)
    case ReadInto(_, p, idx) => idx < |kinds| && Supports(kinds[idx], Reading(p))
    case WriteReg(p, idx, _) => idx < |kinds| && Supports(kinds[idx], Writing(p))
    case CallInto(_, _, body) => Compiles(kinds, body)
    case Branch(_, c1, c2) => Compiles(kinds, c1) && Compiles(kinds, c2)
    case _ => true
  }

  // ----- commit and reset -----

  predicate InRwFootprint(kinds: seq<Kind>, hf: HistoryMap, i: nat)
    requires i < |kinds| == |hf|
  {
    kinds[i] != Value && (hf[i].r1 != TFalse || hf[i].w0 != TFalse || hf[i].w1 != TFalse)
  }

  predicate InDataFootprint(hf: HistoryMap, i: nat)
    requires i < |hf|
  {
    hf[i].w0 != TFalse || hf[i].w1 != TFalse
  }

  function RwFootprint(kinds: seq<Kind>, hf: HistoryMap): set<nat>
    requires |kinds| == |hf|
  {
    set i: nat | i < |kinds| && InRwFootprint(kinds, hf, i)
  }

  function DataFootprint(hf: HistoryMap): set<nat> { set i: nat | i < |hf| && InDataFootprint(hf, i) }

  /** Footprints so large that the whole structure is copied instead. */
  predicate Large(footprint: set<nat>, n: nat) { 5 * |footprint| > 4 * n }

  /** `dst` with the listed registers, or everything, taken from `src`. */
  function Copy<T>(dst: seq<T>, src: seq<T>, footprint: set<nat>): (res: seq<T>)
    requires |dst| == |src|
    ensures |res| == |dst|
  {
    if Large(footprint, |dst|) then src
    else seq(|dst|, i requires 0 <= i < |dst| => if i in footprint then src[i] else dst[i])
  }

  function CopyLog(kinds: seq<Kind>, hf: HistoryMap, dst: LogT, src: LogT): (res: LogT)
    requires Shaped(kinds, dst) && Shaped(kinds, src) && |hf| == |kinds|
    ensures Shaped(kinds, res)
  {
    LogT(Copy(dst.rwset, src.rwset, RwFootprint(kinds, hf)), Copy(dst.state, src.state, DataFootprint(hf)))
  }

  function Reset(kinds: seq<Kind>, hf: HistoryMap, st: State): (res: State)
    requires WellShaped(kinds, st) && |hf| == |kinds|
    ensures WellShaped(kinds, res)
  {
    st.(log := CopyLog(kinds, hf, st.log, st.total))
  }

  function Commit(kinds: seq<Kind>, hf: HistoryMap, st: State): (res: State)
    requires WellShaped(kinds, st) && |hf| == |kinds|
    ensures WellShaped(kinds, res)
  {
    st.(total := CopyLog(kinds, hf, st.total, st.log))
  }

  // ----- emitted code -----

  /** The variables of a C++ function. */
  type Env = map<nat, Bits>

  function Get(env: Env, x: nat): Bits { if x in env then env[x] else [] }

  function Set(env: Env, dst: Option<nat>, v: Bits): Env { if dst.Some? then env[dst.value := v] else env }

  function Eval(env: Env, e: Expr): Bits {
    match e
    case Lit(v) => v
    case Loc(x) => Get(env, x)
    case Op1(fn, a) => Sigma1(fn, Eval(env, a))
    case Op2(fn, a1, a2) => Sigma2(fn, Eval(env, a1), Eval(env, a2))
  }

  function EvalAll(env: Env, es: seq<Expr>): (vs: seq<Bits>)
    ensures |vs| == |es|
  {
    seq(|es|, i requires 0 <= i < |es| => Eval(env, es[i]))
  }

  /** A called function starts with its parameters, and its result undefined. */
  function CalleeEnv(vals: seq<Bits>): (env: Env)
    ensures Get(env, 0) == [] && forall i :: 0 <= i < |vals| ==> Get(env, i + 1) == vals[i]
  {
    if vals == [] then map[0 := []]
    else
      var n := |vals|;
      CalleeEnv(vals[..n - 1])[n := vals[n - 1]]
  }

  /** Stopped: the C++ function has returned false. */
  datatype Result = Stopped(st: State) | Running(st: State, env: Env)

  /** What the emitted code of a rule depends on: the kinds, and the rule's final histories. */
  datatype Rule = Rule(kinds: seq<Kind>, hf: HistoryMap, sigma: ExtFun) {
    predicate Valid() { |kinds| == |hf| }
  }

  /** The check and the record of an access; a write has stored its value by then. */
  function Checked(kinds: seq<Kind>, st: State, e: Access, idx: nat): bool
    requires WellShaped(kinds, st) && idx < |kinds| && Supports(kinds[idx], e)
  {
    assert HasShape(kinds[idx], st.log.rwset[idx]) && HasShape(kinds[idx], st.total.rwset[idx]);
    MayAccess(e, st.log.rwset[idx], st.total.rwset[idx])
  }

  function Recorded(kinds: seq<Kind>, st: State, e: Access, idx: nat): (res: State)
    requires WellShaped(kinds, st) && idx < |kinds|
    ensures WellShaped(kinds, res) && res.total == st.total
  {
    st.(log := st.log.(rwset := st.log.rwset[idx := Record(e, st.log.rwset[idx])]))
  }

  function ReadStep(ru: Rule, st: State, env: Env, dst: Option<nat>, p: Port, idx: nat): (res: Result)
    requires ru.Valid() && WellShaped(ru.kinds, st) && idx < |ru.kinds| && Supports(ru.kinds[idx], Reading(p))
    ensures WellShaped(ru.kinds, res.st) && res.st.total == st.total
  {
    var v := if p == P0 then st.total.state[idx] else st.log.state[idx];
    var st' := Recorded(ru.kinds, st, Reading(p), idx);
    if Checked(ru.kinds, st, Reading(p), idx) then Running(st', Set(env, dst, v)) else Stopped(Reset(ru.kinds, ru.hf, st'))
  }

  function WriteStep(ru: Rule, st: State, env: Env, p: Port, idx: nat, v: Bits): (res: Result)
    requires ru.Valid() && WellShaped(ru.kinds, st) && idx < |ru.kinds| && Supports(ru.kinds[idx], Writing(p))
    ensures WellShaped(ru.kinds, res.st) && res.st.total == st.total
  {
    var st' := Recorded(ru.kinds, st.(log := st.log.(state := st.log.state[idx := v])), Writing(p), idx);
    if Checked(ru.kinds, st, Writing(p), idx) then Running(st', env) else Stopped(Reset(ru.kinds, ru.hf, st'))
  }

  function RunCode(ru: Rule, st: State, env: Env, c: Code): (res: Result)
    requires ru.Valid() && WellShaped(ru.kinds, st) && Compiles(ru.kinds, c)
    ensures WellShaped(ru.kinds, res.st) && res.st.total == st.total
    decreases c
  {
    match c
    case Skip => Running(st, env)
    case Then(c1, c2) =>
      (match RunCode(ru, st, env, c1)
       case Stopped(st) => Stopped(st)
       case Running(st, env) => RunCode(ru, st, env, c2))
    case Put(x, e) => Running(st, env[x := Eval(env, e)])
    case ReadInto(dst, p, idx) => ReadStep(ru, st, env, dst, p, idx)
    case WriteReg(p, idx, e) => WriteStep(ru, st, env, p, idx, Eval(env, e))
    case ExternInto(dst, ext, e) => Running(st, Set(env, dst, ru.sigma(ext, Eval(env, e))))
    case CallInto(dst, args, body) =>
      (match RunCode(ru, st, CalleeEnv(EvalAll(env, args)), body)
       case Stopped(st) => Stopped(Reset(ru.kinds, ru.hf, st))
       case Running(st, callee) => Running(st, Set(env, dst, Get(callee, 0))))
    case FailNow(fast) => Stopped(if fast then st else Reset(ru.kinds, ru.hf, st))
    case Branch(e, c1, c2) => if Single(Eval(env, e)) then RunCode(ru, st, env, c1) else RunCode(ru, st, env, c2)
  }

  // ----- rules, schedulers and cycles -----

  /** A program as the back end sees it. */
  datatype Sim = Sim(kinds: seq<Kind>, rules: Rules, sigma: ExtFun) {
    function RuleOf(rl: RuleName): Rule { Rule(kinds, RuleHistories(|kinds|, rules(rl)), sigma) }
    function CodeOf(rl: RuleName): Code { EmitRule(|kinds|, rules(rl)) }
    predicate Runs(rl: RuleName) { Compiles(kinds, CodeOf(rl)) }
    predicate RunsAll(s: Scheduler)
      decreases s
    {
      match s
      case Done => true
      case Cons(rl, s) => Runs(rl) && RunsAll(s)
      case Try(rl, s1, s2) => Runs(rl) && RunsAll(s1) && RunsAll(s2)
      case SPos(s) => RunsAll(s)
    }
  }

  /** Whether the rule fired, and the state it leaves. */
  function ExecRule(sim: Sim, rl: RuleName, st: State): (res: (bool, State))
    requires WellShaped(sim.kinds, st) && sim.Runs(rl)
    ensures WellShaped(sim.kinds, res.1)
    ensures !res.0 ==> res.1.total == st.total
  {
    match RunCode(sim.RuleOf(rl), st, map[], sim.CodeOf(rl))
    case Stopped(st) => (false, st)
    case Running(st, _) => (true, Commit(sim.kinds, sim.RuleOf(rl).hf, st))
  }

  function ExecScheduler(sim: Sim, s: Scheduler, st: State): (res: State)
    requires WellShaped(sim.kinds, st) && sim.RunsAll(s)
    ensures WellShaped(sim.kinds, res)
    decreases s
  {
    match s
    case Done => st
    case Cons(rl, s) => ExecScheduler(sim, s, ExecRule(sim, rl, st).1)
    case Try(rl, s1, s2) =>
      var (fired, st) := ExecRule(sim, rl, st);
      if fired then ExecScheduler(sim, s1, st) else ExecScheduler(sim, s2, st)
    case SPos(s) => ExecScheduler(sim, s, st)
  }

  function FreshSets(kinds: seq<Kind>): seq<RwSet> { seq(|kinds|, i requires 0 <= i < |kinds| => Fresh(kinds[i])) }

  /** A cycle starts by clearing both read-write sets. */
  function StartCycle(kinds: seq<Kind>, st: State): (res: State)
    requires WellShaped(kinds, st)
    ensures WellShaped(kinds, res)
  {
    State(st.log.(rwset := FreshSets(kinds)), st.total.(rwset := FreshSets(kinds)))
  }

  function ExecCycle(sim: Sim, s: Scheduler, st: State): (res: State)
    requires WellShaped(sim.kinds, st) && sim.RunsAll(s)
    ensures WellShaped(sim.kinds, res)
  {
    ExecScheduler(sim, s, StartCycle(sim.kinds, st))
  }

  function ExecCycles(sim: Sim, s: Scheduler, st: State, k: nat): (res: State)
    requires WellShaped(sim.kinds, st) && sim.RunsAll(s)
    ensures WellShaped(sim.kinds, res)
    decreases k
  {
    if k == 0 then st else ExecCycles(sim, s, ExecCycle(sim, s, st), k - 1)
  }

  // ----- the simulator object -----

  /** The emitted class: its methods change the two copies in place. */
  class Simulator {
    const sim: Sim
    var log: LogT
    var total: LogT

    ghost function Contents(): State
      reads this
    {
      State(log, total)
    }

    ghost predicate Valid()
      reads this
    {
      WellShaped(sim.kinds, Contents())
    }

    constructor (sim: Sim, init: seq<Bits>)
      requires |init| == |sim.kinds|
      ensures this.sim == sim && Valid()
      ensures log == total == LogT(FreshSets(sim.kinds), init)
    {
      this.sim := sim;
      log := LogT(FreshSets(sim.kinds), init);
      total := LogT(FreshSets(sim.kinds), init);
    }

    method ReadRegister(p: Port, idx: nat) returns (ok: bool, v: Bits)
      requires Valid() && idx < |sim.kinds| && Supports(sim.kinds[idx], Reading(p))
      modifies this`log
      ensures Valid()
      ensures exists k :: HasShape(k, old(log).rwset[idx]) && HasShape(k, total.rwset[idx]) && Supports(k, Reading(p))
      ensures ok == MayAccess(Reading(p), old(log).rwset[idx], total.rwset[idx])
      ensures v == if p == P0 then total.state[idx] else old(log).state[idx]
      ensures log == old(log).(rwset := old(log).rwset[idx := Record(Reading(p), old(log).rwset[idx])])
    {
      assert HasShape(sim.kinds[idx], log.rwset[idx]) && HasShape(sim.kinds[idx], total.rwset[idx]);
      ok := MayAccess(Reading(p), log.rwset[idx], total.rwset[idx]);
      v := if p == P0 then total.state[idx] else log.state[idx];
      log := log.(rwset := log.rwset[idx := Record(Reading(p), log.rwset[idx])]);
    }

    method WriteRegister(p: Port, idx: nat, v: Bits) returns (ok: bool)
      requires Valid() && idx < |sim.kinds| && Supports(sim.kinds[idx], Writing(p))
      modifies this`log
      ensures Valid()
      ensures exists k :: HasShape(k, old(log).rwset[idx]) && HasShape(k, total.rwset[idx]) && Supports(k, Writing(p))
      ensures ok == MayAccess(Writing(p), old(log).rwset[idx], total.rwset[idx])
      ensures log == LogT(old(log).rwset[idx := Record(Writing(p), old(log).rwset[idx])], old(log).state[idx := v])
    {
      assert HasShape(sim.kinds[idx], log.rwset[idx]) && HasShape(sim.kinds[idx], total.rwset[idx]);
      ok := MayAccess(Writing(p), log.rwset[idx], total.rwset[idx]);
      log := log.(state := log.state[idx := v]);
      log := log.(rwset := log.rwset[idx := Record(Writing(p), log.rwset[idx])]);
    }

    method ResetRule(hf: HistoryMap)
      requires Valid() && |hf| == |sim.kinds|
      modifies this`log
      ensures Valid() && Contents() == Reset(sim.kinds, hf, old(Contents()))
    {
      log := log.(state := Copy(log.state, total.state, DataFootprint(hf)));
      log := log.(rwset := Copy(log.rwset, total.rwset, RwFootprint(sim.kinds, hf)));
    }

    method CommitRule(hf: HistoryMap)
      requires Valid() && |hf| == |sim.kinds|
      modifies this`total
      ensures Valid() && Contents() == Commit(sim.kinds, hf, old(Contents()))
    {
      total := total.(state := Copy(total.state, log.state, DataFootprint(hf)));
      total := total.(rwset := Copy(total.rwset, log.rwset, RwFootprint(sim.kinds, hf)));
    }

    /** Runs emitted code; `ok` is false when the C++ function has returned false. */
    method RunStatements(hf: HistoryMap, env: Env, c: Code) returns (ok: bool, env': Env)
      requires Valid() && |hf| == |sim.kinds| && Compiles(sim.kinds, c)
      modifies this
      ensures Valid()
      ensures RunCode(Rule(sim.kinds, hf, sim.sigma), old(Contents()), env, c) ==
              if ok then Running(Contents(), env') else Stopped(Contents())
      decreases c
    {
      ok, env' := true, env;
      match c
      case Skip =>
      case Then(c1, c2) =>
        ok, env' := RunStatements(hf, env, c1);
        if ok { ok, env' := RunStatements(hf, env', c2); }
      case Put(x, e) => env' := env[x := Eval(env, e)];
      case ReadInto(dst, p, idx) =>
        var v;
        ok, v := ReadRegister(p, idx);
        if ok { env' := Set(env, dst, v); } else { ResetRule(hf); }
      case WriteReg(p, idx, e) =>
        ok := WriteRegister(p, idx, Eval(env, e));
        if !ok { ResetRule(hf); }
      case ExternInto(dst, ext, e) => env' := Set(env, dst, sim.sigma(ext, Eval(env, e)));
      case CallInto(dst, args, body) =>
        var callee;
        ok, callee := RunStatements(hf, CalleeEnv(EvalAll(env, args)), body);
        if ok { env' := Set(env, dst, Get(callee, 0)); } else { ResetRule(hf); }
      case FailNow(fast) =>
        if !fast { ResetRule(hf); }
        ok := false;
      case Branch(e, c1, c2) =>
        if Single(Eval(env, e)) {
          ok, env' := RunStatements(hf, env, c1);
        } else {
          ok, env' := RunStatements(hf, env, c2);
        }
    }

    method RunRule(rl: RuleName) returns (fired: bool)
      requires Valid() && sim.Runs(rl)
      modifies this
      ensures Valid() && (fired, Contents()) == ExecRule(sim, rl, old(Contents()))
    {
      var hf := RuleHistories(|sim.kinds|, sim.rules(rl));
      var ok, _ := RunStatements(hf, map[], sim.CodeOf(rl));
      if ok { CommitRule(hf); }
      fired := ok;
    }

    method RunScheduler(s: Scheduler)
      requires Valid() && sim.RunsAll(s)
      modifies this
      ensures Valid() && Contents() == ExecScheduler(sim, s, old(Contents()))
      decreases s
    {
      match s
      case Done =>
      case Cons(rl, s) =>
        var _ := RunRule(rl);
        RunScheduler(s);
      case Try(rl, s1, s2) =>
        var fired := RunRule(rl);
        if fired { RunScheduler(s1); } else { RunScheduler(s2); }
      case SPos(s) => RunScheduler(s);
    }

    method Cycle(s: Scheduler)
      requires Valid() && sim.RunsAll(s)
      modifies this
      ensures Valid() && Contents() == ExecCycle(sim, s, old(Contents()))
    {
      total := total.(rwset := FreshSets(sim.kinds));
      log := log.(rwset := total.rwset);
      RunScheduler(s);
    }

    method Run(s: Scheduler, ncycles: nat)
      requires Valid() && sim.RunsAll(s)
      modifies this
      ensures Valid() && Contents() == ExecCycles(sim, s, old(Contents()), ncycles)
    {
      var cycle := 0;
      while cycle < ncycles
        invariant cycle <= ncycles && Valid()
        invariant ExecCycles(sim, s, Contents(), ncycles - cycle) == ExecCycles(sim, s, old(Contents()), ncycles)
      {
        Cycle(s);
        cycle := cycle + 1;
      }
    }
  }
}
