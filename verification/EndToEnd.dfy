/** From typed source rules to clocked hardware: bits for values, lowering, circuit
    generation and optimization together, over whole runs. */
module EndToEnd {
  import opened BitVectors
  import opened Syntax
  import opened Logs
  import opened Semantics
  import opened Circuits
  import opened CircuitGeneration
  import opened Lowering
  import Correct = CompilerCorrectness
  import Optimization = CircuitOptimization
  import Oraat = OneRuleAtATime
  import External = ExternalRules
  import Cuttlesim
  import Simulation = SimulatorCorrectness
  import Ty = Types
  import TS = TypedSyntax
  import TypedSemantics
  import TL = TypedLowering

  /** A bit-level program: register widths and external signatures, rules and scheduler. */
  datatype BitProgram = BitProgram(g: Sigs, rules: Rules, s: Scheduler) {
    ghost predicate Valid() { TypedRules(g, rules) }
  }

  /** Each register starts the cycle as its own output. */
  function Start(n: nat): seq<Circuit> { seq(n, i requires i >= 0 => CReadRegister(i)) }

  function Design(p: BitProgram, opt: Optimizer, external: RuleName -> bool): CircuitGeneration.Design {
    CircuitGeneration.Design(opt, Start(|p.g.regs|), LowerRules(p.rules), external)
  }

  lemma DesignCompilable(p: BitProgram, opt: Optimizer, external: RuleName -> bool)
    requires p.Valid()
    ensures Compilable(Design(p, opt, external))
    ensures TypedRules(p.g, LowerRules(p.rules)) && ScopedRules(p.rules, |p.g.regs|)
  {
    LowerRulesTyped(p.g, p.rules);
    TypedRulesAreScoped(p.g, LowerRules(p.rules));
    TypedRulesAreScoped(p.g, p.rules);
  }

  /** The source's compiler: one circuit per register. */
  function Compile(p: BitProgram, opt: Optimizer, external: RuleName -> bool): (res: seq<Circuit>)
    requires p.Valid()
    ensures |res| == |p.g.regs|
  {
    DesignCompilable(p, opt, external);
    CompileScheduler(Design(p, opt, external), p.g.regs, p.s)
  }

  /** Every external rule is implemented by its module. */
  ghost predicate ModulesOk(p: BitProgram, external: RuleName -> bool, m: Meaning, sigma: ExtFun)
    requires p.Valid()
  {
    DesignCompilable(p, c => c, external);
    External.Faithful(m, sigma, |p.g.regs|, LowerRules(p.rules), external)
  }

  /** One tick of the clock. */
  function Tick(circuits: seq<Circuit>, sigma: ExtFun, m: Meaning, r: RegFile): RegFile {
    seq(|circuits|, i requires 0 <= i < |circuits| => Interp(r, sigma, m, circuits[i]))
  }

  function Ticks(circuits: seq<Circuit>, sigma: ExtFun, m: Meaning, r: RegFile, k: nat): RegFile
    decreases k
  {
    if k == 0 then r else Ticks(circuits, sigma, m, Tick(circuits, sigma, m, r), k - 1)
  }

  /** One tick of the compiled circuits is one cycle of the source program, for
      every meaning-preserving optimizer, and keeps the registers' widths. */
  lemma {:induction false} BitsCompileCorrect(p: BitProgram, opt: Optimizer, external: RuleName -> bool, m: Meaning, sigma: ExtFun, r: RegFile)
    requires p.Valid() && TypedExts(p.g, sigma) && Preserves(p.g, sigma, m, opt) && TypedRegs(p.g, r)
    requires ModulesOk(p, external, m, sigma)
    ensures ScopedRules(p.rules, |r|)
    ensures Tick(Compile(p, opt, external), sigma, m, r) == InterpCycle(sigma, p.rules, p.s, r)
    ensures TypedRegs(p.g, InterpCycle(sigma, p.rules, p.s, r))
  {
    var w := Correct.World(p.g, r, sigma, m, opt);
    var d := Design(p, opt, external);
    var circuits := Compile(p, opt, external);
    DesignCompilable(p, opt, external);
    assert PreservesAt(p.g, r, sigma, m, opt);
    assert Correct.StartOk(w, d.cr);
    Correct.CompileSchedulerCorrect(w, d, p.s);
    CycleLoweringCorrect(sigma, p.rules, p.s, r);
    var r' := InterpCycle(sigma, p.rules, p.s, r);
    forall i | 0 <= i < |r| ensures Interp(r, sigma, m, circuits[i]) == r'[i] && |r'[i]| == p.g.regs[i] {
      assert w.Value(circuits[i]) == r'[i];
      assert w.Is(p.g.regs[i], circuits[i]);
      InterpWidth(p.g, r, sigma, m, circuits[i]);
    }
  }

  /** The same over any number of ticks. */
  lemma {:induction false} BitsRunCorrect(p: BitProgram, opt: Optimizer, external: RuleName -> bool, m: Meaning, sigma: ExtFun, r: RegFile, k: nat)
    requires p.Valid() && TypedExts(p.g, sigma) && Preserves(p.g, sigma, m, opt) && TypedRegs(p.g, r)
    requires ModulesOk(p, external, m, sigma)
    ensures ScopedRules(p.rules, |r|)
    ensures Ticks(Compile(p, opt, external), sigma, m, r, k) == InterpCycles(sigma, p.rules, p.s, r, k)
    decreases k
  {
    BitsCompileCorrect(p, opt, external, m, sigma, r);
    if k > 0 {
      BitsRunCorrect(p, opt, external, m, sigma, InterpCycle(sigma, p.rules, p.s, r), k - 1);
    }
  }

  /** The optimized hardware behaves as if rules ran one at a time: over any number
      of ticks there is a list of rules that, run one per cycle of the source
      semantics, all fire and lead to the same registers. */
  lemma {:induction false} HardwareIsOneRuleAtATime(p: BitProgram, eq: Optimization.Equivalence, fuel: nat, external: RuleName -> bool, m: Meaning,
                                            sigma: ExtFun, r: RegFile, k: nat) returns (rs: seq<RuleName>)
    requires p.Valid() && TypedExts(p.g, sigma) && TypedRegs(p.g, r)
    requires Optimization.Sound(p.g, sigma, m, eq) && ModulesOk(p, external, m, sigma)
    ensures ScopedRules(p.rules, |r|)
    ensures forall rl :: rl in rs ==> rl in Oraat.SchedulerRules(p.s)
    ensures Oraat.AllFire(sigma, p.rules, r, rs)
    ensures Ticks(Compile(p, Optimization.OptAllIterated(p.g, eq, fuel), external), sigma, m, r, k) ==
            Oraat.FoldOraat(sigma, p.rules, r, rs)
  {
    Optimization.OptAllIteratedCorrect(p.g, sigma, m, eq, fuel);
    BitsRunCorrect(p, Optimization.OptAllIterated(p.g, eq, fuel), external, m, sigma, r, k);
    Oraat.OneRuleAtATimeCycles(sigma, p.rules, p.s, r, k);
    rs := Oraat.FiredOver(sigma, p.rules, p.s, r, k);
  }

  /** The two back ends agree: clocking the optimized circuits and running the
      simulator give the same registers, over any number of cycles in none of which a
      leftover read refuses a write of the semantics. */
  lemma {:induction false} BitsBackEndsAgree(p: BitProgram, eq: Optimization.Equivalence, fuel: nat, external: RuleName -> bool, m: Meaning,
                                             sigma: ExtFun, r: RegFile, st: Cuttlesim.State, k: nat)
    requires p.Valid() && TypedExts(p.g, sigma) && TypedRegs(p.g, r)
    requires Optimization.Sound(p.g, sigma, m, eq) && ModulesOk(p, external, m, sigma)
    requires ScopedRules(p.rules, |r|) && Simulation.SafeRules(p.rules, p.s)
    requires forall j: nat :: j < k ==> Simulation.CycleUnblocked(p.rules, sigma, p.s, InterpCycles(sigma, p.rules, p.s, r, j))
    requires Simulation.Holds(Simulation.BackEnd(|r|, p.rules, sigma, p.s), st, r)
    ensures Simulation.BackEnd(|r|, p.rules, sigma, p.s).RunsAll(p.s)
    ensures Cuttlesim.ExecCycles(Simulation.BackEnd(|r|, p.rules, sigma, p.s), p.s, st, k).total.state ==
            Ticks(Compile(p, Optimization.OptAllIterated(p.g, eq, fuel), external), sigma, m, r, k)
  {
    hide Simulation.CycleUnblocked, Simulation.SafeRules;
    Simulation.UnblockedCycles(p.rules, sigma, p.s, r, st, k);
    Optimization.OptAllIteratedCorrect(p.g, sigma, m, eq, fuel);
    BitsRunCorrect(p, Optimization.OptAllIterated(p.g, eq, fuel), external, m, sigma, r, k);
  }

  // ----- typed programs -----

  /** A program over values of any type, as the source's compiler is given it. */
  datatype Program = Program(g: TS.Sigs, rules: TS.Rules, s: Scheduler) {
    ghost predicate Valid() { TS.TypedRules(g, rules) }

    function Bits(): BitProgram { BitProgram(TL.SigsBits(g), TL.RulesBits(rules), s) }
  }

  lemma {:induction false} TypedWorld(g: TS.Sigs, sigma: TypedSemantics.ExtFun, r: TypedSemantics.RegFile)
    requires TL.ExtsTyped(g, sigma) && TL.AllTyped(g.regs, r)
    ensures TypedExts(TL.SigsBits(g), TL.ExtBits(g, sigma)) && TypedRegs(TL.SigsBits(g), TL.ToBits(r))
  {
    forall f: nat, b: Bits | f < |g.exts| && |b| == TL.SigsBits(g).exts[f].arg
      ensures |TL.ExtBits(g, sigma)(f, b)| == TL.SigsBits(g).exts[f].ret
    {
      Ty.BitsWidth(sigma(f, Ty.OfBits(g.exts[f].arg, b)), g.exts[f].ret);
    }
    forall i | 0 <= i < |r| ensures |TL.ToBits(r)[i]| == TL.SigsBits(g).regs[i] { Ty.BitsWidth(r[i], g.regs[i]); }
  }

  /** One tick of the compiled circuits, started on the bits of the registers, ends on
      the bits of the registers after one cycle of the typed program. */
  lemma {:induction false} CompileCorrect(p: Program, opt: Optimizer, external: RuleName -> bool, m: Meaning,
                                          sigma: TypedSemantics.ExtFun, r: TypedSemantics.RegFile)
    requires p.Valid() && TL.ExtsTyped(p.g, sigma) && TL.AllTyped(p.g.regs, r)
    requires Preserves(TL.SigsBits(p.g), TL.ExtBits(p.g, sigma), m, opt)
    requires p.Bits().Valid() ==> ModulesOk(p.Bits(), external, m, TL.ExtBits(p.g, sigma))
    ensures p.Bits().Valid() && TypedSemantics.ScopedRules(p.rules, |r|)
    ensures Tick(Compile(p.Bits(), opt, external), TL.ExtBits(p.g, sigma), m, TL.ToBits(r)) ==
            TL.ToBits(TypedSemantics.InterpCycle(sigma, p.rules, p.s, r))
    ensures TL.AllTyped(p.g.regs, TypedSemantics.InterpCycle(sigma, p.rules, p.s, r))
  {
    TL.RulesScoped(p.g, p.rules);
    TypedWorld(p.g, sigma, r);
    TL.CycleErases(p.g, p.rules, sigma, p.s, r);
    BitsCompileCorrect(p.Bits(), opt, external, m, TL.ExtBits(p.g, sigma), TL.ToBits(r));
  }

  /** So for any number of ticks; and the final bits, read at the registers' types, are
      the typed program's registers. */
  lemma {:induction false} RunCorrect(p: Program, opt: Optimizer, external: RuleName -> bool, m: Meaning,
                                      sigma: TypedSemantics.ExtFun, r: TypedSemantics.RegFile, k: nat)
    requires p.Valid() && TL.ExtsTyped(p.g, sigma) && TL.AllTyped(p.g.regs, r)
    requires Preserves(TL.SigsBits(p.g), TL.ExtBits(p.g, sigma), m, opt)
    requires p.Bits().Valid() ==> ModulesOk(p.Bits(), external, m, TL.ExtBits(p.g, sigma))
    ensures p.Bits().Valid() && TypedSemantics.ScopedRules(p.rules, |r|)
    ensures var bits := Ticks(Compile(p.Bits(), opt, external), TL.ExtBits(p.g, sigma), m, TL.ToBits(r), k);
            var final := TypedSemantics.InterpCycles(sigma, p.rules, p.s, r, k);
            && bits == TL.ToBits(final) && |final| == |p.g.regs|
            && forall i :: 0 <= i < |p.g.regs| ==> |bits[i]| == Ty.SizeOf(p.g.regs[i]) && Ty.OfBits(p.g.regs[i], bits[i]) == final[i]
  {
    TL.RulesScoped(p.g, p.rules);
    TypedWorld(p.g, sigma, r);
    TL.CyclesErase(p.g, p.rules, sigma, p.s, r, k);
    BitsRunCorrect(p.Bits(), opt, external, m, TL.ExtBits(p.g, sigma), TL.ToBits(r), k);
    var final := TypedSemantics.InterpCycles(sigma, p.rules, p.s, r, k);
    forall i | 0 <= i < |p.g.regs|
      ensures |TL.ToBits(final)[i]| == Ty.SizeOf(p.g.regs[i]) && Ty.OfBits(p.g.regs[i], TL.ToBits(final)[i]) == final[i]
    {
      Ty.OfBitsOf(final[i], p.g.regs[i]);
    }
  }

  /** Both back ends, started on the bits of a typed program's registers, end on the bits
      of its registers, when the text of its bit-level form meets the conditions. */
  lemma {:induction false} BackEndsAgree(p: Program, eq: Optimization.Equivalence, fuel: nat, external: RuleName -> bool, m: Meaning,
                                         sigma: TypedSemantics.ExtFun, r: TypedSemantics.RegFile, st: Cuttlesim.State, k: nat)
    requires p.Valid() && TL.ExtsTyped(p.g, sigma) && TL.AllTyped(p.g.regs, r)
    requires Optimization.Sound(TL.SigsBits(p.g), TL.ExtBits(p.g, sigma), m, eq)
    requires p.Bits().Valid() ==> ModulesOk(p.Bits(), external, m, TL.ExtBits(p.g, sigma))
    requires Simulation.Simulable(|r|, p.Bits().rules, p.s)
    requires Simulation.Holds(Simulation.BackEnd(|r|, p.Bits().rules, TL.ExtBits(p.g, sigma), p.s), st, TL.ToBits(r))
    ensures p.Bits().Valid() && TypedSemantics.ScopedRules(p.rules, |r|)
    ensures var sim := Simulation.BackEnd(|r|, p.Bits().rules, TL.ExtBits(p.g, sigma), p.s);
            var final := TypedSemantics.InterpCycles(sigma, p.rules, p.s, r, k);
            && sim.RunsAll(p.s)
            && Cuttlesim.ExecCycles(sim, p.s, st, k).total.state == TL.ToBits(final)
            && Ticks(Compile(p.Bits(), Optimization.OptAllIterated(TL.SigsBits(p.g), eq, fuel), external),
                     TL.ExtBits(p.g, sigma), m, TL.ToBits(r), k) == TL.ToBits(final)
  {
    hide Simulation.Simulable;
    TypedWorld(p.g, sigma, r);
    Optimization.OptAllIteratedCorrect(TL.SigsBits(p.g), TL.ExtBits(p.g, sigma), m, eq, fuel);
    RunCorrect(p, Optimization.OptAllIterated(TL.SigsBits(p.g), eq, fuel), external, m, sigma, r, k);
    TL.RulesScoped(p.g, p.rules);
    TL.CyclesErase(p.g, p.rules, sigma, p.s, r, k);
    Simulation.CyclesAgree(p.Bits().rules, TL.ExtBits(p.g, sigma), p.s, TL.ToBits(r), st, k);
  }
}
