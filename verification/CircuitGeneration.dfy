/** The compiler from lowered rules and schedulers to circuits.  A rule's circuit
    keeps, for each register, the wires that say which accesses it made and the
    data it wrote, and goes on computing after the rule has failed. */
module CircuitGeneration {
  import opened BitVectors
  import opened Primitives
  import opened Syntax
  import opened Circuits

  datatype RwCircuit = RwCircuit(canFire: Circuit, regs: seq<RwData>)

  datatype ActionCircuit = ActionCircuit(erwc: RwCircuit, retVal: Circuit, ctx: seq<Circuit>)

  function AnnotOpt(opt: Optimizer, an: string, c: Circuit): Circuit { CAnnot(an, opt(c)) }

  function KConst(opt: Optimizer, an: string, b: Bits): Circuit { AnnotOpt(opt, an, CConst(b)) }

  function KNot(opt: Optimizer, an: string, c: Circuit): Circuit { AnnotOpt(opt, an, CUnop(Not(1), c)) }

  function KAnd(opt: Optimizer, an: string, c1: Circuit, c2: Circuit): Circuit {
    AnnotOpt(opt, an, CBinop(And(1), c1, c2))
  }

  function KOr(opt: Optimizer, an: string, c1: Circuit, c2: Circuit): Circuit {
    AnnotOpt(opt, an, CBinop(Or(1), c1, c2))
  }

  function KImpl(opt: Optimizer, an: string, c1: Circuit, c2: Circuit): Circuit {
    KOr(opt, an, KNot(opt, "impl", c1), c2)
  }

  function KMux(opt: Optimizer, an: string, s: Circuit, c1: Circuit, c2: Circuit): Circuit {
    AnnotOpt(opt, an, CMux(s, c1, c2))
  }

  function UnopOpt(opt: Optimizer, fn: Fbits1, c: Circuit): Circuit { opt(CUnop(fn, c)) }

  function BinopOpt(opt: Optimizer, fn: Fbits2, c1: Circuit, c2: Circuit): Circuit { opt(CBinop(fn, c1, c2)) }

  // ----- operators -----

  /** Natural-number subtraction. */
  function Monus(x: nat, y: nat): nat { if x <= y then 0 else x - y }

  function CompileUnop(opt: Optimizer, fn: Fbits1, a: Circuit): Circuit {
    opt(match fn
        case SExt(sz, width) =>
          BinopOpt(opt, Cat(Monus(width, sz), sz),
                   UnopOpt(opt, Rep(1, Monus(width, sz)),
                           BinopOpt(opt, Select(sz), a, CConst(OfNat(Log2Up(sz), Monus(sz, 1))))),
                   a)
        case ZExtL(sz, width) => BinopOpt(opt, Cat(Monus(width, sz), sz), CConst(Zeroes(Monus(width, sz))), a)
        case ZExtR(sz, width) => BinopOpt(opt, Cat(sz, Monus(width, sz)), a, CConst(Zeroes(Monus(width, sz))))
        case IgnoreBits(_) => CConst([])
        case DisplayBits(_) => CConst([])
        case _ => CUnop(fn, a))
  }

  /** Slice replacement out of slices and concatenations. */
  function SliceSubstMacro(opt: Optimizer, sz: nat, offset: nat, width: nat, c1: Circuit, c2: Circuit): Circuit {
    if offset <= sz then
      var high :=
        if width <= sz - offset then
          BinopOpt(opt, Cat(sz - offset - width, width),
                   UnopOpt(opt, Slc(sz, offset + width, sz - offset - width), c1), c2)
        else UnopOpt(opt, Slc(width, 0, sz - offset), c2);
      BinopOpt(opt, Cat(sz - offset, offset), high, UnopOpt(opt, Slc(sz, 0, offset), c1))
    else c1
  }

  function CompileBinop(opt: Optimizer, fn: Fbits2, c1: Circuit, c2: Circuit): Circuit {
    opt(match fn
        case Subst(sz, offset, width, _) => SliceSubstMacro(opt, sz, offset, width, c1, c2)
        case _ => CBinop(fn, c1, c2))
  }

  // ----- actions -----

  function MuxRwData(opt: Optimizer, an: string, cond: Circuit, t: RwData, f: RwData): RwData {
    RwData(KMux(opt, an, cond, t.read0, f.read0), KMux(opt, an, cond, t.read1, f.read1),
           KMux(opt, an, cond, t.write0, f.write0), KMux(opt, an, cond, t.write1, f.write1),
           KMux(opt, an, cond, t.data0, f.data0), KMux(opt, an, cond, t.data1, f.data1))
  }

  function MuxRwSets(opt: Optimizer, an: string, cond: Circuit, t: seq<RwData>, f: seq<RwData>): seq<RwData>
    requires |t| == |f|
  {
    seq(|t|, i requires 0 <= i < |t| => MuxRwData(opt, an, cond, t[i], f[i]))
  }

  function MuxContext(opt: Optimizer, cond: Circuit, t: seq<Circuit>, f: seq<Circuit>): seq<Circuit>
    requires |t| == |f|
  {
    seq(|t|, i requires 0 <= i < |t| => KMux(opt, "mux_ccontext", cond, t[i], f[i]))
  }

  /** The wires of register `d` after a read. */
  function RwAfterRead(opt: Optimizer, p: Port, d: RwData): RwData {
    match p
    case P0 => d.(read0 := KConst(opt, "read0", [true]))
    case P1 => d.(read1 := KConst(opt, "read1", [true]))
  }

  /** The wires of register `d` after a write of `v`. */
  function RwAfterWrite(opt: Optimizer, p: Port, d: RwData, v: Circuit): RwData {
    match p
    case P0 => d.(write0 := KConst(opt, "write0", [true]), data0 := v)
    case P1 => d.(write1 := KConst(opt, "write1", [true]), data1 := v)
  }

  /** The rule's own conflicts; those with other rules are left to the scheduler. */
  function CanFireAfterWrite(opt: Optimizer, p: Port, canFire: Circuit, d: RwData): Circuit {
    match p
    case P0 =>
      KAnd(opt, "write0_canFire", canFire,
           KAnd(opt, "write0_canFire",
                KAnd(opt, "write0_canFire", KNot(opt, "no_read1", d.read1), KNot(opt, "no_write0", d.write0)),
                KNot(opt, "no_write1", d.write1)))
    case P1 => KAnd(opt, "write1_canFire", canFire, KNot(opt, "no_write1", d.write1))
  }

  /** `cr` gives the circuit of each register's value at the start of the cycle,
      `G` those of the variables, and `clog` the rule's wires so far. */
  function CompileAction(opt: Optimizer, cr: seq<Circuit>, G: seq<Circuit>, a: Action, clog: RwCircuit): (res: ActionCircuit)
    requires Lowered(a) && Scoped(a, |cr|, |G|) && |clog.regs| == |cr|
    ensures |res.erwc.regs| == |cr| && |res.ctx| == |G|
    decreases a
  {
    match a
    case Fail(sz) =>
      ActionCircuit(RwCircuit(KConst(opt, "fail_canFire", [false]), clog.regs), KConst(opt, "fail", Zeroes(sz)), G)
    case Var(k, m) => ActionCircuit(clog, AnnotOpt(opt, "var_" + k, G[m]), G)
    case Cst(cst) => ActionCircuit(clog, CConst(cst), G)
    case Seq(r1, r2) =>
      var c := CompileAction(opt, cr, G, r1, clog);
      CompileAction(opt, cr, c.ctx, r2, c.erwc)
    case Assign(_, m, ex) =>
      var c := CompileAction(opt, cr, G, ex, clog);
      ActionCircuit(c.erwc, KConst(opt, "assign_retVal", []), c.ctx[m := c.retVal])
    case Bind(_, _, ex, body) =>
      var c := CompileAction(opt, cr, G, ex, clog);
      var b := CompileAction(opt, cr, [c.retVal] + c.ctx, body, c.erwc);
      ActionCircuit(b.erwc, b.retVal, b.ctx[1..])
    case If(cond, tbranch, fbranch) =>
      var c := CompileAction(opt, cr, G, cond, clog);
      var t := CompileAction(opt, cr, c.ctx, tbranch, c.erwc);
      var f := CompileAction(opt, cr, c.ctx, fbranch, c.erwc);
      var s := AnnotOpt(opt, "cond", c.retVal);
      ActionCircuit(
        RwCircuit(KMux(opt, "if_canFire", s, t.erwc.canFire, f.erwc.canFire),
                  MuxRwSets(opt, "if_mux", s, t.erwc.regs, f.erwc.regs)),
        KMux(opt, "if_retVal", s, t.retVal, f.retVal),
        MuxContext(opt, s, t.ctx, f.ctx))
    case Read(p, idx) =>
      var d := clog.regs[idx];
      ActionCircuit(clog.(regs := clog.regs[idx := RwAfterRead(opt, p, d)]),
                    if p.P0? then cr[idx] else d.data0, G)
    case Write(p, idx, value) =>
      var c := CompileAction(opt, cr, G, value, clog);
      var d := c.erwc.regs[idx];
      ActionCircuit(
        RwCircuit(CanFireAfterWrite(opt, p, c.erwc.canFire, d),
                  c.erwc.regs[idx := RwAfterWrite(opt, p, d, c.retVal)]),
        KConst(opt, "write_retVal", []), c.ctx)
    case Unop(fn, arg) =>
      var c := CompileAction(opt, cr, G, arg, clog);
      c.(retVal := CompileUnop(opt, fn, c.retVal))
    case Binop(fn, arg1, arg2) =>
      var c1 := CompileAction(opt, cr, G, arg1, clog);
      var c2 := CompileAction(opt, cr, c1.ctx, arg2, c1.erwc);
      c2.(retVal := CompileBinop(opt, fn, c1.retVal, c2.retVal))
    case ExternalCall(ext, arg) =>
      var c := CompileAction(opt, cr, G, arg, clog);
      c.(retVal := CExternal(ext, c.retVal))
    case APos(a) => CompileAction(opt, cr, G, a, clog)
  }

  // ----- rules in a scheduler -----

  /** A rule starts with no accesses of its own and the data written so far. */
  function Adapter(opt: Optimizer, input: seq<RwData>): RwCircuit {
    RwCircuit(KConst(opt, "cF_init", [true]),
              seq(|input|, i requires 0 <= i < |input| =>
                RwData(KConst(opt, "init_no_read0", [false]), KConst(opt, "init_no_read1", [false]),
                       KConst(opt, "init_no_write0", [false]), KConst(opt, "init_no_write1", [false]),
                       input[i].data0, input[i].data1)))
  }

  /** No access of the rule to this register conflicts with earlier rules. */
  function WillFireRegister(opt: Optimizer, rule: RwData, input: RwData): Circuit {
    var read0 := KImpl(opt, "read0_willFire_of_canFire", rule.read0,
                       KNot(opt, "read0_willFire_no_writes", KOr(opt, "", input.write0, input.write1)));
    var write0 := KImpl(opt, "write0_willFire_of_canFire", rule.write0,
                        KNot(opt, "write0_willFire_no_writes_no_read1",
                             KOr(opt, "", KOr(opt, "", input.write0, input.write1), input.read1)));
    var rw1 := KImpl(opt, "read_write1_willFire_of_canFire", KOr(opt, "", rule.read1, rule.write1),
                     KNot(opt, "read_write1_willFire_no_write1", input.write1));
    KAnd(opt, "", KAnd(opt, "", read0, write0), rw1)
  }

  function WillFireFrom(opt: Optimizer, rl: RuleName, rule: RwCircuit, input: seq<RwData>, i: nat): Circuit
    requires i <= |rule.regs| == |input|
    decreases |input| - i
  {
    if i == |input| then CAnnot("cF_" + rl, rule.canFire)
    else KAnd(opt, "wF_" + rl, WillFireFrom(opt, rl, rule, input, i + 1),
              WillFireRegister(opt, rule.regs[i], input[i]))
  }

  function WillFireOfCanFire(opt: Optimizer, rl: RuleName, rule: RwCircuit, input: seq<RwData>): Circuit
    requires |rule.regs| == |input|
  {
    CAnnot("wF_" + rl, WillFireFrom(opt, rl, rule, input, 0))
  }

  function UpdateAccumulated(opt: Optimizer, rule: seq<RwData>, acc: seq<RwData>): seq<RwData>
    requires |rule| == |acc|
  {
    var an := "compute_accumulated_rwset";
    seq(|rule|, i requires 0 <= i < |rule| =>
      RwData(KOr(opt, an, rule[i].read0, acc[i].read0), KOr(opt, an, rule[i].read1, acc[i].read1),
             KOr(opt, an, rule[i].write0, acc[i].write0), KOr(opt, an, rule[i].write1, acc[i].write1),
             rule[i].data0, rule[i].data1))
  }

  // ----- external rules: their wires are routed through a bundle -----

  /** The registers an action mentions, without repetition. */
  function ActionRegisters(a: Action): seq<nat>
    requires Lowered(a)
  {
    Dedup([], Footprint([], a))
  }

  function Footprint(acc: seq<nat>, a: Action): seq<nat>
    requires Lowered(a)
    decreases a
  {
    match a
    case Assign(_, _, ex) => Footprint(acc, ex)
    case Seq(r1, r2) => Footprint(Footprint(acc, r1), r2)
    case Bind(_, _, ex, body) => Footprint(Footprint(acc, ex), body)
    case If(cond, tbranch, fbranch) => Footprint(Footprint(Footprint(acc, cond), tbranch), fbranch)
    case Read(_, idx) => [idx] + acc
    case Write(_, idx, value) => Footprint([idx] + acc, value)
    case Unop(_, arg) => Footprint(acc, arg)
    case Binop(_, arg1, arg2) => Footprint(Footprint(acc, arg1), arg2)
    case ExternalCall(_, arg) => Footprint(acc, arg)
    case APos(a) => Footprint(acc, a)
    case _ => acc
  }

  function Dedup(acc: seq<nat>, l: seq<nat>): seq<nat>
    decreases |l|
  {
    if l == [] then acc else Dedup(if l[0] in acc then acc else [l[0]] + acc, l[1..])
  }

  function WrapRwData(rl: RuleName, rs: seq<nat>, bundle: seq<RwData>, reg: nat, d: RwData): RwData {
    if reg in rs then
      var wrap := (f: RwField, c: Circuit) => CBundleRef(rl, rs, bundle, RegisterField(reg, f), c);
      RwData(wrap(Read0Field, d.read0), wrap(Read1Field, d.read1), wrap(Write0Field, d.write0),
             wrap(Write1Field, d.write1), wrap(Data0Field, d.data0), wrap(Data1Field, d.data1))
    else d
  }

  /** The wires of the registers `rs`. */
  function BundleOf(rs: seq<nat>, input: seq<RwData>): seq<RwData>
    requires forall reg :: reg in rs ==> reg < |input|
  {
    seq(|rs|, i requires 0 <= i < |rs| => assert rs[i] in rs; input[rs[i]])
  }

  function WrapExternal(rs: seq<nat>, input: seq<RwData>, c: RwCircuit, rl: RuleName): RwCircuit
    requires |c.regs| == |input| && forall reg :: reg in rs ==> reg < |input|
  {
    var bundle := BundleOf(rs, input);
    RwCircuit(CBundleRef(rl, rs, bundle, CanFireField, c.canFire),
              seq(|c.regs|, i requires 0 <= i < |c.regs| => WrapRwData(rl, rs, bundle, i, c.regs[i])))
  }

  lemma {:induction false} FootprintInRange(acc: seq<nat>, a: Action, n: nat, vars: nat)
    requires Lowered(a) && Scoped(a, n, vars) && forall reg :: reg in acc ==> reg < n
    ensures forall reg :: reg in Footprint(acc, a) ==> reg < n
    decreases a
  {
    match a
    case Assign(_, _, ex) => FootprintInRange(acc, ex, n, vars);
    case Seq(r1, r2) => FootprintInRange(acc, r1, n, vars); FootprintInRange(Footprint(acc, r1), r2, n, vars);
    case Bind(_, _, ex, body) =>
      FootprintInRange(acc, ex, n, vars);
      FootprintInRange(Footprint(acc, ex), body, n, vars + 1);
    case If(cond, tbranch, fbranch) =>
      FootprintInRange(acc, cond, n, vars);
      FootprintInRange(Footprint(acc, cond), tbranch, n, vars);
      FootprintInRange(Footprint(Footprint(acc, cond), tbranch), fbranch, n, vars);
    case Write(_, idx, value) => FootprintInRange([idx] + acc, value, n, vars);
    case Unop(_, arg) => FootprintInRange(acc, arg, n, vars);
    case Binop(_, arg1, arg2) =>
      FootprintInRange(acc, arg1, n, vars);
      FootprintInRange(Footprint(acc, arg1), arg2, n, vars);
    case ExternalCall(_, arg) => FootprintInRange(acc, arg, n, vars);
    case APos(a) => FootprintInRange(acc, a, n, vars);
    case _ =>
  }

  lemma {:induction false} DedupKeeps(acc: seq<nat>, l: seq<nat>)
    ensures forall reg :: reg in Dedup(acc, l) <==> reg in acc || reg in l
    decreases |l|
  {
    if l != [] {
      DedupKeeps(if l[0] in acc then acc else [l[0]] + acc, l[1..]);
    }
  }

  predicate NoRepeats(l: seq<nat>) { forall i, j :: 0 <= i < j < |l| ==> l[i] != l[j] }

  lemma {:induction false} DedupOnce(acc: seq<nat>, l: seq<nat>)
    requires NoRepeats(acc)
    ensures NoRepeats(Dedup(acc, l))
    decreases |l|
  {
    if l != [] { DedupOnce(if l[0] in acc then acc else [l[0]] + acc, l[1..]); }
  }

  lemma RegistersInRange(a: Action, n: nat)
    requires Lowered(a) && Scoped(a, n, 0)
    ensures forall reg :: reg in ActionRegisters(a) ==> reg < n
  {
    FootprintInRange([], a, n, 0);
    DedupKeeps([], Footprint([], a));
  }

  // ----- schedulers -----

  /** Everything the compiler is given besides the scheduler. */
  datatype Design = Design(opt: Optimizer, cr: seq<Circuit>, rules: Rules, external: RuleName -> bool)

  ghost predicate Compilable(d: Design) { ScopedRules(d.rules, |d.cr|) && LoweredRules(d.rules) }

  function CompileRule(d: Design, rl: RuleName, input: seq<RwData>): (res: RwCircuit)
    requires Compilable(d) && |input| == |d.cr|
    ensures |res.regs| == |d.cr|
  {
    var rule := d.rules(rl);
    var c := CompileAction(d.opt, d.cr, [], rule, Adapter(d.opt, input)).erwc;
    RegistersInRange(rule, |d.cr|);
    if d.external(rl) then WrapExternal(ActionRegisters(rule), input, c, rl) else c
  }

  function CompileSchedulerCircuit(d: Design, s: Scheduler, input: seq<RwData>): (res: seq<RwData>)
    requires Compilable(d) && |input| == |d.cr|
    ensures |res| == |d.cr|
    decreases s
  {
    match s
    case Done => input
    case Cons(rl, s) =>
      var c := CompileRule(d, rl, input);
      var acc := UpdateAccumulated(d.opt, c.regs, input);
      var willFire := WillFireOfCanFire(d.opt, rl, c, input);
      CompileSchedulerCircuit(d, s, MuxRwSets(d.opt, rl + "_out", willFire, acc, input))
    case Try(rl, st, sf) =>
      var c := CompileRule(d, rl, input);
      var acc := UpdateAccumulated(d.opt, c.regs, input);
      var t := CompileSchedulerCircuit(d, st, acc);
      var f := CompileSchedulerCircuit(d, sf, input);
      var willFire := WillFireOfCanFire(d.opt, rl, c, input);
      MuxRwSets(d.opt, "mux_subschedulers", willFire, t, f)
    case SPos(s) => CompileSchedulerCircuit(d, s, input)
  }

  function CommitRwData(opt: Optimizer, reg: RwData): Circuit {
    KMux(opt, "commit_write1", reg.write1, reg.data1, reg.data0)
  }

  function InitSchedulerRwData(opt: Optimizer, reg: Circuit, sz: nat): RwData {
    RwData(KConst(opt, "sched_init_no_read0", [false]), KConst(opt, "sched_init_no_read1", [false]),
           KConst(opt, "sched_init_no_write0", [false]), KConst(opt, "sched_init_no_write1", [false]),
           AnnotOpt(opt, "sched_init_data0_is_reg", reg), AnnotOpt(opt, "sched_init_no_data1", CConst(Zeroes(sz))))
  }

  function InitSchedulerCircuit(d: Design, sizes: seq<nat>): seq<RwData>
    requires |sizes| == |d.cr|
  {
    seq(|d.cr|, i requires 0 <= i < |d.cr| => InitSchedulerRwData(d.opt, d.cr[i], sizes[i]))
  }

  /** One circuit per register: its value at the end of the cycle. */
  function CompileScheduler(d: Design, sizes: seq<nat>, s: Scheduler): (res: seq<Circuit>)
    requires Compilable(d) && |sizes| == |d.cr|
    ensures |res| == |d.cr|
  {
    var regs := CompileSchedulerCircuit(d, s, InitSchedulerCircuit(d, sizes));
    seq(|d.cr|, i requires 0 <= i < |d.cr| => CommitRwData(d.opt, regs[i]))
  }
}
