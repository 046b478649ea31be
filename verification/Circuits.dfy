/** Combinational circuits, their widths and their meaning. */
module Circuits {
  import opened BitVectors
  import opened Primitives
  import opened Syntax
  import opened Logs
  import opened Semantics
  import W = Wires

  datatype RwField = Read0Field | Read1Field | Write0Field | Write1Field | Data0Field | Data1Field

  datatype BundleField = RegisterField(reg: nat, field: RwField) | CanFireField

  datatype Circuit =
    | CMux(select: Circuit, c1: Circuit, c2: Circuit)
    | CConst(cst: Bits)
    | CReadRegister(reg: nat)
    | CUnop(fn1: Fbits1, a: Circuit)
    | CBinop(fn2: Fbits2, a1: Circuit, a2: Circuit)
    | CExternal(ext: nat, arg: Circuit)
    | CBundleRef(name: RuleName, regs: seq<nat>, bundle: seq<RwData>, field: BundleField, c: Circuit)
    | CAnnot(annot: string, c: Circuit)

  /** The wires that a rule or a scheduler keeps for one register. */
  datatype RwData = RwData(read0: Circuit, read1: Circuit, write0: Circuit, write1: Circuit,
                           data0: Circuit, data1: Circuit)

  /** The module of an external rule: given the rule's name, the registers of its bundle
      and the bundle's wires, what it drives back. */
  type External = (RuleName, seq<nat>, seq<W.WireData>) -> W.RuleWires

  /** A bundle reference stands for the circuit that the compiler made of the rule, or
      for the wire of that name that the rule's module drives. */
  datatype Meaning = ByCircuit | ByModule(ext: External)

  function Index(regs: seq<nat>, reg: nat): (i: nat)
    requires reg in regs
    ensures i < |regs| && regs[i] == reg
  {
    if regs[0] == reg then 0 else 1 + Index(regs[1..], reg)
  }

  function WireOf(d: W.WireData, f: RwField): Bits {
    match f
    case Read0Field => [d.read0]
    case Read1Field => [d.read1]
    case Write0Field => [d.write0]
    case Write1Field => [d.write1]
    case Data0Field => d.data0
    case Data1Field => d.data1
  }

  /** The wire that a field names; a wire that is not driven is empty. */
  function Driven(o: W.RuleWires, regs: seq<nat>, field: BundleField): Bits {
    match field
    case CanFireField => [o.canFire]
    case RegisterField(reg, f) =>
      if reg in regs && Index(regs, reg) < |o.regs| then WireOf(o.regs[Index(regs, reg)], f) else []
  }

  /** A driven wire is cut off or padded with zeroes to the width of its reference. */
  function Interp(r: RegFile, sigma: ExtFun, m: Meaning, c: Circuit): Bits
    decreases c
  {
    match c
    case CMux(select, c1, c2) =>
      if Single(Interp(r, sigma, m, select)) then Interp(r, sigma, m, c1) else Interp(r, sigma, m, c2)
    case CConst(cst) => cst
    case CReadRegister(reg) => if reg < |r| then r[reg] else []
    case CUnop(fn, a) => Sigma1(fn, Interp(r, sigma, m, a))
    case CBinop(fn, a1, a2) => Sigma2(fn, Interp(r, sigma, m, a1), Interp(r, sigma, m, a2))
    case CExternal(ext, arg) => sigma(ext, Interp(r, sigma, m, arg))
    case CBundleRef(name, regs, bundle, field, c) =>
      var own := Interp(r, sigma, m, c);
      if m.ByCircuit? then own
      else
        var wires := seq(|bundle|, i requires 0 <= i < |bundle| =>
          W.WireData(Single(Interp(r, sigma, m, bundle[i].read0)), Single(Interp(r, sigma, m, bundle[i].read1)),
                     Single(Interp(r, sigma, m, bundle[i].write0)), Single(Interp(r, sigma, m, bundle[i].write1)),
                     Interp(r, sigma, m, bundle[i].data0), Interp(r, sigma, m, bundle[i].data1)));
        Slice(0, |own|, Driven(m.ext(name, regs, wires), regs, field))
    case CAnnot(_, c) => Interp(r, sigma, m, c)
  }

  function Width(g: Sigs, c: Circuit): nat
    decreases c
  {
    match c
    case CMux(_, c1, _) => Width(g, c1)
    case CConst(cst) => |cst|
    case CReadRegister(reg) => if reg < |g.regs| then g.regs[reg] else 0
    case CUnop(fn, _) => fn.Ret()
    case CBinop(fn, _, _) => fn.Ret()
    case CExternal(ext, _) => if ext < |g.exts| then g.exts[ext].ret else 0
    case CBundleRef(_, _, _, _, c) => Width(g, c)
    case CAnnot(_, c) => Width(g, c)
  }

  /** What the source's indexed type of circuits guarantees. */
  predicate WellSized(g: Sigs, c: Circuit)
    decreases c
  {
    match c
    case CMux(select, c1, c2) =>
      WellSized(g, select) && WellSized(g, c1) && WellSized(g, c2) &&
      Width(g, select) == 1 && Width(g, c1) == Width(g, c2)
    case CConst(_) => true
    case CReadRegister(reg) => reg < |g.regs|
    case CUnop(fn, a) => WellSized(g, a) && Width(g, a) == fn.Arg()
    case CBinop(fn, a1, a2) =>
      WellSized(g, a1) && WellSized(g, a2) && Width(g, a1) == fn.Arg1() && Width(g, a2) == fn.Arg2()
    case CExternal(ext, arg) => ext < |g.exts| && WellSized(g, arg) && Width(g, arg) == g.exts[ext].arg
    case CBundleRef(_, _, _, _, c) => WellSized(g, c)
    case CAnnot(_, c) => WellSized(g, c)
  }

  predicate Sized(g: Sigs, sz: nat, c: Circuit) { WellSized(g, c) && Width(g, c) == sz }

  predicate TypedRegs(g: Sigs, r: RegFile) {
    |r| == |g.regs| && forall i :: 0 <= i < |r| ==> |r[i]| == g.regs[i]
  }

  ghost predicate TypedExts(g: Sigs, sigma: ExtFun) {
    forall f: nat, b: Bits :: f < |g.exts| && |b| == g.exts[f].arg ==> |sigma(f, b)| == g.exts[f].ret
  }

  lemma {:induction false} InterpWidth(g: Sigs, r: RegFile, sigma: ExtFun, m: Meaning, c: Circuit)
    requires TypedRegs(g, r) && TypedExts(g, sigma) && WellSized(g, c)
    ensures |Interp(r, sigma, m, c)| == Width(g, c)
    decreases c
  {
    match c
    case CMux(_, c1, c2) => InterpWidth(g, r, sigma, m, c1); InterpWidth(g, r, sigma, m, c2);
    case CConst(_) =>
    case CReadRegister(_) =>
    case CUnop(fn, a) =>
      InterpWidth(g, r, sigma, m, a);
      Sigma1Width(fn, Interp(r, sigma, m, a));
    case CBinop(fn, a1, a2) =>
      InterpWidth(g, r, sigma, m, a1);
      InterpWidth(g, r, sigma, m, a2);
      Sigma2Width(fn, Interp(r, sigma, m, a1), Interp(r, sigma, m, a2));
    case CExternal(_, arg) => InterpWidth(g, r, sigma, m, arg);
    case CBundleRef(_, _, _, _, c) => InterpWidth(g, r, sigma, m, c);
    case CAnnot(_, c) => InterpWidth(g, r, sigma, m, c);
  }

  type Optimizer = Circuit -> Circuit

  /** `c'` can stand for `c`. */
  predicate SameMeaning(g: Sigs, r: RegFile, sigma: ExtFun, m: Meaning, c: Circuit, c': Circuit) {
    WellSized(g, c') && Width(g, c') == Width(g, c) && Interp(r, sigma, m, c') == Interp(r, sigma, m, c)
  }

  /** The contract of a local optimizer. */
  ghost predicate Preserves(g: Sigs, sigma: ExtFun, m: Meaning, opt: Optimizer) {
    forall r :: TypedRegs(g, r) ==> PreservesAt(g, r, sigma, m, opt)
  }

  ghost predicate PreservesAt(g: Sigs, r: RegFile, sigma: ExtFun, m: Meaning, opt: Optimizer) {
    forall c :: WellSized(g, c) ==> SameMeaning(g, r, sigma, m, c, opt(c))
  }
}
