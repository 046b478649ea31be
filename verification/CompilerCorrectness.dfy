/** The compiled circuits mean what the reference semantics says, for every
    optimizer that preserves meaning. */
module CompilerCorrectness {
  import opened BitVectors
  import opened Primitives
  import opened Syntax
  import opened Logs
  import opened Semantics
  import opened Circuits
  import opened CircuitGeneration
  import opened ExternalRules
  import W = Wires
  import LogDiscipline

  /** Everything that stays fixed while a design is compiled and evaluated. */
  datatype World = World(g: Sigs, r: RegFile, sigma: ExtFun, m: Meaning, opt: Optimizer) {
    ghost predicate Valid() {
      TypedRegs(g, r) && TypedExts(g, sigma) && PreservesAt(g, r, sigma, m, opt)
    }
    function Value(c: Circuit): Bits { Interp(r, sigma, m, c) }
    predicate Bit(c: Circuit) { Single(Value(c)) }
    predicate Is(sz: nat, c: Circuit) { Sized(g, sz, c) }
  }

  // ----- gates -----

  lemma OptOk(w: World, sz: nat, c: Circuit)
    requires w.Valid() && w.Is(sz, c)
    ensures w.Is(sz, w.opt(c)) && w.Value(w.opt(c)) == w.Value(c) && |w.Value(c)| == sz
  {
    InterpWidth(w.g, w.r, w.sigma, w.m, c);
    assert SameMeaning(w.g, w.r, w.sigma, w.m, c, w.opt(c));
  }

  lemma ConstOk(w: World, b: Bits)
    ensures w.Is(|b|, CConst(b)) && w.Value(CConst(b)) == b
  {
  }

  lemma AnnotOk(w: World, sz: nat, an: string, c: Circuit)
    requires w.Is(sz, c)
    ensures w.Is(sz, CAnnot(an, c)) && w.Value(CAnnot(an, c)) == w.Value(c)
  {
  }

  lemma UnopOk(w: World, fn: Fbits1, c: Circuit)
    requires w.Is(fn.Arg(), c)
    ensures w.Is(fn.Ret(), CUnop(fn, c)) && w.Value(CUnop(fn, c)) == Sigma1(fn, w.Value(c))
  {
  }

  lemma BinopOk(w: World, fn: Fbits2, c1: Circuit, c2: Circuit)
    requires w.Is(fn.Arg1(), c1) && w.Is(fn.Arg2(), c2)
    ensures w.Is(fn.Ret(), CBinop(fn, c1, c2))
    ensures w.Value(CBinop(fn, c1, c2)) == Sigma2(fn, w.Value(c1), w.Value(c2))
  {
  }

  lemma MuxOk(w: World, sz: nat, s: Circuit, c1: Circuit, c2: Circuit)
    requires w.Is(1, s) && w.Is(sz, c1) && w.Is(sz, c2)
    ensures w.Is(sz, CMux(s, c1, c2))
    ensures w.Value(CMux(s, c1, c2)) == if w.Bit(s) then w.Value(c1) else w.Value(c2)
  {
  }

  lemma ExternalOk(w: World, ext: nat, c: Circuit)
    requires ext < |w.g.exts| && w.Is(w.g.exts[ext].arg, c)
    ensures w.Is(w.g.exts[ext].ret, CExternal(ext, c))
    ensures w.Value(CExternal(ext, c)) == w.sigma(ext, w.Value(c))
  {
  }

  lemma AnnotOptOk(w: World, sz: nat, an: string, c: Circuit)
    requires w.Valid() && w.Is(sz, c)
    ensures w.Is(sz, AnnotOpt(w.opt, an, c)) && w.Value(AnnotOpt(w.opt, an, c)) == w.Value(c)
  {
    hide Interp, WellSized, Width, World.Valid;
    OptOk(w, sz, c);
    AnnotOk(w, sz, an, w.opt(c));
  }

  lemma KConstOk(w: World, an: string, b: Bits)
    requires w.Valid()
    ensures w.Is(|b|, KConst(w.opt, an, b)) && w.Value(KConst(w.opt, an, b)) == b
  {
    hide Interp, WellSized, Width, World.Valid;
    ConstOk(w, b);
    AnnotOptOk(w, |b|, an, CConst(b));
  }

  lemma {:induction false} KNotOk(w: World, an: string, c: Circuit)
    requires w.Valid() && w.Is(1, c)
    ensures w.Is(1, KNot(w.opt, an, c)) && w.Bit(KNot(w.opt, an, c)) == !w.Bit(c)
  {
    hide Interp, WellSized, Width, World.Valid;
    OptOk(w, 1, c);
    UnopOk(w, Not(1), c);
    AnnotOptOk(w, 1, an, CUnop(Not(1), c));
  }

  lemma KAndOk(w: World, an: string, c1: Circuit, c2: Circuit)
    requires w.Valid() && w.Is(1, c1) && w.Is(1, c2)
    ensures w.Is(1, KAnd(w.opt, an, c1, c2)) && w.Bit(KAnd(w.opt, an, c1, c2)) == (w.Bit(c1) && w.Bit(c2))
  {
    hide Interp, WellSized, Width, World.Valid;
    OptOk(w, 1, c1);
    OptOk(w, 1, c2);
    BinopOk(w, And(1), c1, c2);
    AnnotOptOk(w, 1, an, CBinop(And(1), c1, c2));
  }

  lemma {:induction false} KOrOk(w: World, an: string, c1: Circuit, c2: Circuit)
    requires w.Valid() && w.Is(1, c1) && w.Is(1, c2)
    ensures w.Is(1, KOr(w.opt, an, c1, c2)) && w.Bit(KOr(w.opt, an, c1, c2)) == (w.Bit(c1) || w.Bit(c2))
  {
    hide Interp, WellSized, Width, World.Valid;
    OptOk(w, 1, c1);
    OptOk(w, 1, c2);
    BinopOk(w, Or(1), c1, c2);
    AnnotOptOk(w, 1, an, CBinop(Or(1), c1, c2));
  }

  lemma KImplOk(w: World, an: string, c1: Circuit, c2: Circuit)
    requires w.Valid() && w.Is(1, c1) && w.Is(1, c2)
    ensures w.Is(1, KImpl(w.opt, an, c1, c2)) && w.Bit(KImpl(w.opt, an, c1, c2)) == (w.Bit(c1) ==> w.Bit(c2))
  {
    hide Interp, WellSized, Width, World.Valid;
    KNotOk(w, "impl", c1);
    KOrOk(w, an, KNot(w.opt, "impl", c1), c2);
  }

  lemma KMuxOk(w: World, an: string, sz: nat, s: Circuit, c1: Circuit, c2: Circuit)
    requires w.Valid() && w.Is(1, s) && w.Is(sz, c1) && w.Is(sz, c2)
    ensures w.Is(sz, KMux(w.opt, an, s, c1, c2))
    ensures w.Value(KMux(w.opt, an, s, c1, c2)) == if w.Bit(s) then w.Value(c1) else w.Value(c2)
  {
    hide Interp, WellSized, Width, World.Valid;
    OptOk(w, sz, c1);
    OptOk(w, sz, c2);
    MuxOk(w, sz, s, c1, c2);
    AnnotOptOk(w, sz, an, CMux(s, c1, c2));
  }

  // ----- operators -----

  lemma UnopOptOk(w: World, fn: Fbits1, c: Circuit)
    requires w.Valid() && w.Is(fn.Arg(), c)
    ensures w.Is(fn.Ret(), UnopOpt(w.opt, fn, c)) && w.Value(UnopOpt(w.opt, fn, c)) == Sigma1(fn, w.Value(c))
  {
    hide Interp, WellSized, Width, World.Valid;
    UnopOk(w, fn, c);
    OptOk(w, fn.Ret(), CUnop(fn, c));
  }

  lemma BinopOptOk(w: World, fn: Fbits2, c1: Circuit, c2: Circuit)
    requires w.Valid() && w.Is(fn.Arg1(), c1) && w.Is(fn.Arg2(), c2)
    ensures w.Is(fn.Ret(), BinopOpt(w.opt, fn, c1, c2))
    ensures w.Value(BinopOpt(w.opt, fn, c1, c2)) == Sigma2(fn, w.Value(c1), w.Value(c2))
  {
    hide Interp, WellSized, Width, World.Valid;
    BinopOk(w, fn, c1, c2);
    OptOk(w, fn.Ret(), CBinop(fn, c1, c2));
  }

  lemma SExtCircuit(w: World, sz: nat, width: nat, a: Circuit)
    requires w.Valid() && w.Is(sz, a)
    ensures var c := BinopOpt(w.opt, Cat(Monus(width, sz), sz),
                       UnopOpt(w.opt, Rep(1, Monus(width, sz)),
                         BinopOpt(w.opt, Select(sz), a, CConst(OfNat(Log2Up(sz), Monus(sz, 1))))), a);
            w.Is(Max(sz, width), c) && w.Value(c) == ExtendEnd(w.Value(a), width, Msb(w.Value(a)))
  {
    hide Interp, WellSized, Width, World.Valid;
    var k := Monus(width, sz);
    var idx := CConst(OfNat(Log2Up(sz), Monus(sz, 1)));
    OptOk(w, sz, a);
    ConstOk(w, OfNat(Log2Up(sz), Monus(sz, 1)));
    BinopOptOk(w, Select(sz), a, idx);
    var sel := BinopOpt(w.opt, Select(sz), a, idx);
    SelMsb(w.Value(a));
    UnopOptOk(w, Rep(1, k), sel);
    RepeatBit(k, Msb(w.Value(a)));
    BinopOptOk(w, Cat(k, sz), UnopOpt(w.opt, Rep(1, k), sel), a);
  }

  lemma {:induction false} CompileUnopOk(w: World, fn: Fbits1, a: Circuit)
    requires w.Valid() && w.Is(fn.Arg(), a)
    ensures w.Is(fn.Ret(), CompileUnop(w.opt, fn, a))
    ensures w.Value(CompileUnop(w.opt, fn, a)) == Sigma1(fn, w.Value(a))
  {
    hide Interp, WellSized, Width, World.Valid;
    OptOk(w, fn.Arg(), a);
    match fn
    case SExt(sz, width) =>
      SExtCircuit(w, sz, width, a);
      OptOk(w, fn.Ret(), BinopOpt(w.opt, Cat(Monus(width, sz), sz),
                       UnopOpt(w.opt, Rep(1, Monus(width, sz)),
                         BinopOpt(w.opt, Select(sz), a, CConst(OfNat(Log2Up(sz), Monus(sz, 1))))), a));
    case ZExtL(sz, width) =>
      var z := CConst(Zeroes(Monus(width, sz)));
      ConstOk(w, Zeroes(Monus(width, sz)));
      BinopOptOk(w, Cat(Monus(width, sz), sz), z, a);
      OptOk(w, fn.Ret(), BinopOpt(w.opt, Cat(Monus(width, sz), sz), z, a));
    case ZExtR(sz, width) =>
      var z := CConst(Zeroes(Monus(width, sz)));
      ConstOk(w, Zeroes(Monus(width, sz)));
      BinopOptOk(w, Cat(sz, Monus(width, sz)), a, z);
      OptOk(w, fn.Ret(), BinopOpt(w.opt, Cat(sz, Monus(width, sz)), a, z));
    case IgnoreBits(_) => ConstOk(w, []); OptOk(w, 0, CConst([]));
    case DisplayBits(_) => ConstOk(w, []); OptOk(w, 0, CConst([]));
    case _ => UnopOk(w, fn, a); OptOk(w, fn.Ret(), CUnop(fn, a));
  }

  /** Slice replacement by slices and concatenations, overhanging slices included. */
  lemma {:induction false} SliceSubstParts(offset: nat, width: nat, b: Bits, v: Bits)
    requires |v| == width
    ensures offset > |b| ==> SliceSubst(offset, width, b, v) == b
    ensures offset <= |b| && width <= |b| - offset ==>
              SliceSubst(offset, width, b, v) ==
              Concat(Concat(Slice(offset + width, |b| - offset - width, b), v), Slice(0, offset, b))
    ensures offset <= |b| && width > |b| - offset ==>
              SliceSubst(offset, width, b, v) == Concat(Slice(0, |b| - offset, v), Slice(0, offset, b))
  {
  }

  lemma {:induction false} SliceSubstMacroOk(w: World, sz: nat, offset: nat, width: nat, c1: Circuit, c2: Circuit)
    requires w.Valid() && w.Is(sz, c1) && w.Is(width, c2)
    ensures w.Is(sz, SliceSubstMacro(w.opt, sz, offset, width, c1, c2))
    ensures w.Value(SliceSubstMacro(w.opt, sz, offset, width, c1, c2)) ==
            SliceSubst(offset, width, w.Value(c1), w.Value(c2))
  {
    hide Interp, WellSized, Width, World.Valid;
    OptOk(w, sz, c1);
    OptOk(w, width, c2);
    SliceSubstParts(offset, width, w.Value(c1), w.Value(c2));
    if offset <= sz {
      UnopOptOk(w, Slc(sz, 0, offset), c1);
      var low := UnopOpt(w.opt, Slc(sz, 0, offset), c1);
      if width <= sz - offset {
        var top := UnopOpt(w.opt, Slc(sz, offset + width, sz - offset - width), c1);
        UnopOptOk(w, Slc(sz, offset + width, sz - offset - width), c1);
        BinopOptOk(w, Cat(sz - offset - width, width), top, c2);
        BinopOptOk(w, Cat(sz - offset, offset), BinopOpt(w.opt, Cat(sz - offset - width, width), top, c2), low);
      } else {
        UnopOptOk(w, Slc(width, 0, sz - offset), c2);
        BinopOptOk(w, Cat(sz - offset, offset), UnopOpt(w.opt, Slc(width, 0, sz - offset), c2), low);
      }
    }
  }

  lemma {:induction false} CompileBinopOk(w: World, fn: Fbits2, c1: Circuit, c2: Circuit)
    requires w.Valid() && w.Is(fn.Arg1(), c1) && w.Is(fn.Arg2(), c2)
    ensures w.Is(fn.Ret(), CompileBinop(w.opt, fn, c1, c2))
    ensures w.Value(CompileBinop(w.opt, fn, c1, c2)) == Sigma2(fn, w.Value(c1), w.Value(c2))
  {
    hide Interp, WellSized, Width, World.Valid;
    match fn
    case Subst(sz, offset, width, _) =>
      SliceSubstMacroOk(w, sz, offset, width, c1, c2);
      OptOk(w, sz, SliceSubstMacro(w.opt, sz, offset, width, c1, c2));
    case _ => BinopOk(w, fn, c1, c2); OptOk(w, fn.Ret(), CBinop(fn, c1, c2));
  }

  // ----- circuits as wires -----

  predicate RwOk(w: World, sz: nat, d: RwData) {
    && w.Is(1, d.read0) && w.Is(1, d.read1) && w.Is(1, d.write0) && w.Is(1, d.write1)
    && w.Is(sz, d.data0) && w.Is(sz, d.data1)
  }

  function EvalRw(w: World, d: RwData): W.WireData {
    W.WireData(w.Bit(d.read0), w.Bit(d.read1), w.Bit(d.write0), w.Bit(d.write1),
               w.Value(d.data0), w.Value(d.data1))
  }

  predicate SetOk(w: World, ds: seq<RwData>) {
    |ds| == |w.g.regs| && forall i :: 0 <= i < |ds| ==> RwOk(w, w.g.regs[i], ds[i])
  }

  function EvalSet(w: World, ds: seq<RwData>): seq<W.WireData> {
    seq(|ds|, i requires 0 <= i < |ds| => EvalRw(w, ds[i]))
  }

  predicate RuleOk(w: World, c: RwCircuit) { w.Is(1, c.canFire) && SetOk(w, c.regs) }

  function EvalRule(w: World, c: RwCircuit): W.RuleWires { W.RuleWires(w.Bit(c.canFire), EvalSet(w, c.regs)) }

  predicate CtxOk(w: World, sig: seq<nat>, G: seq<Circuit>) {
    |G| == |sig| && forall i :: 0 <= i < |G| ==> w.Is(sig[i], G[i])
  }

  function EvalCtx(w: World, G: seq<Circuit>): Ctx { seq(|G|, i requires 0 <= i < |G| => w.Value(G[i])) }

  lemma {:induction false} MuxRwDataOk(w: World, an: string, sz: nat, s: Circuit, t: RwData, f: RwData)
    requires w.Valid() && w.Is(1, s) && RwOk(w, sz, t) && RwOk(w, sz, f)
    ensures RwOk(w, sz, MuxRwData(w.opt, an, s, t, f))
    ensures EvalRw(w, MuxRwData(w.opt, an, s, t, f)) == if w.Bit(s) then EvalRw(w, t) else EvalRw(w, f)
  {
    hide Interp, WellSized, Width, World.Valid;
    KMuxOk(w, an, 1, s, t.read0, f.read0);
    KMuxOk(w, an, 1, s, t.read1, f.read1);
    KMuxOk(w, an, 1, s, t.write0, f.write0);
    KMuxOk(w, an, 1, s, t.write1, f.write1);
    KMuxOk(w, an, sz, s, t.data0, f.data0);
    KMuxOk(w, an, sz, s, t.data1, f.data1);
  }

  lemma {:induction false} MuxRwSetsOk(w: World, an: string, s: Circuit, t: seq<RwData>, f: seq<RwData>)
    requires w.Valid() && w.Is(1, s) && SetOk(w, t) && SetOk(w, f)
    ensures SetOk(w, MuxRwSets(w.opt, an, s, t, f))
    ensures EvalSet(w, MuxRwSets(w.opt, an, s, t, f)) == if w.Bit(s) then EvalSet(w, t) else EvalSet(w, f)
  {
    hide Interp, WellSized, Width, World.Valid;
    forall i | 0 <= i < |t|
      ensures RwOk(w, w.g.regs[i], MuxRwData(w.opt, an, s, t[i], f[i]))
      ensures EvalRw(w, MuxRwData(w.opt, an, s, t[i], f[i])) == if w.Bit(s) then EvalRw(w, t[i]) else EvalRw(w, f[i])
    {
      MuxRwDataOk(w, an, w.g.regs[i], s, t[i], f[i]);
    }
  }

  lemma {:induction false} MuxContextOk(w: World, sig: seq<nat>, s: Circuit, t: seq<Circuit>, f: seq<Circuit>)
    requires w.Valid() && w.Is(1, s) && CtxOk(w, sig, t) && CtxOk(w, sig, f)
    ensures CtxOk(w, sig, MuxContext(w.opt, s, t, f))
    ensures EvalCtx(w, MuxContext(w.opt, s, t, f)) == if w.Bit(s) then EvalCtx(w, t) else EvalCtx(w, f)
  {
    hide Interp, WellSized, Width, World.Valid;
    forall i | 0 <= i < |t|
      ensures w.Is(sig[i], MuxContext(w.opt, s, t, f)[i])
      ensures w.Value(MuxContext(w.opt, s, t, f)[i]) == if w.Bit(s) then w.Value(t[i]) else w.Value(f[i])
    {
      KMuxOk(w, "mux_ccontext", sig[i], s, t[i], f[i]);
    }
  }

  lemma SetUpdate(w: World, ds: seq<RwData>, idx: nat, d: RwData)
    requires SetOk(w, ds) && idx < |ds| && RwOk(w, w.g.regs[idx], d)
    ensures SetOk(w, ds[idx := d]) && EvalSet(w, ds[idx := d]) == EvalSet(w, ds)[idx := EvalRw(w, d)]
  {
  }

  // ----- actions -----

  /** The circuits for the registers' starting values. */
  predicate StartOk(w: World, cr: seq<Circuit>) {
    |cr| == |w.r| == |w.g.regs| &&
    forall i :: 0 <= i < |cr| ==> w.Is(w.g.regs[i], cr[i]) && w.Value(cr[i]) == w.r[i]
  }

  predicate Computes(w: World, sig: seq<nat>, sz: nat, c: ActionCircuit, o: W.WireOutcome) {
    && RuleOk(w, c.erwc) && EvalRule(w, c.erwc) == o.wires
    && w.Is(sz, c.retVal) && w.Value(c.retVal) == o.val
    && CtxOk(w, sig, c.ctx) && EvalCtx(w, c.ctx) == o.ctx
  }

  lemma {:induction false} ReadOk(w: World, p: Port, sz: nat, d: RwData)
    requires w.Valid() && RwOk(w, sz, d)
    ensures RwOk(w, sz, RwAfterRead(w.opt, p, d))
    ensures EvalRw(w, RwAfterRead(w.opt, p, d)) == W.AfterRead(EvalRw(w, d), p)
  {
    hide Interp, WellSized, Width, World.Valid;
    KConstOk(w, "read0", [true]);
    KConstOk(w, "read1", [true]);
  }

  lemma {:induction false} WriteOk(w: World, p: Port, sz: nat, d: RwData, v: Circuit)
    requires w.Valid() && RwOk(w, sz, d) && w.Is(sz, v)
    ensures RwOk(w, sz, RwAfterWrite(w.opt, p, d, v))
    ensures EvalRw(w, RwAfterWrite(w.opt, p, d, v)) == W.AfterWrite(EvalRw(w, d), p, w.Value(v))
  {
    hide Interp, WellSized, Width, World.Valid;
    KConstOk(w, "write0", [true]);
    KConstOk(w, "write1", [true]);
  }

  lemma {:induction false} CanFireOk(w: World, p: Port, sz: nat, canFire: Circuit, d: RwData)
    requires w.Valid() && RwOk(w, sz, d) && w.Is(1, canFire)
    ensures w.Is(1, CanFireAfterWrite(w.opt, p, canFire, d))
    ensures w.Bit(CanFireAfterWrite(w.opt, p, canFire, d)) == (w.Bit(canFire) && W.OwnWriteAllowed(EvalRw(w, d), p))
  {
    hide Interp, WellSized, Width, World.Valid;
    KNotOk(w, "no_write1", d.write1);
    var n1 := KNot(w.opt, "no_write1", d.write1);
    match p
    case P1 => KAndOk(w, "write1_canFire", canFire, n1);
    case P0 =>
      KNotOk(w, "no_read1", d.read1);
      KNotOk(w, "no_write0", d.write0);
      var r1, n0 := KNot(w.opt, "no_read1", d.read1), KNot(w.opt, "no_write0", d.write0);
      KAndOk(w, "write0_canFire", r1, n0);
      KAndOk(w, "write0_canFire", KAnd(w.opt, "write0_canFire", r1, n0), n1);
      KAndOk(w, "write0_canFire", canFire,
             KAnd(w.opt, "write0_canFire", KAnd(w.opt, "write0_canFire", r1, n0), n1));
  }

  lemma {:induction false} CompileActionOk(w: World, cr: seq<Circuit>, sig: seq<nat>, sz: nat, G: seq<Circuit>,
                                           a: Action, clog: RwCircuit)
    requires w.Valid() && StartOk(w, cr) && Lowered(a) && Typed(w.g, sig, sz, a)
    requires CtxOk(w, sig, G) && RuleOk(w, clog) && Scoped(a, |w.r|, |sig|)
    ensures Computes(w, sig, sz, CompileAction(w.opt, cr, G, a, clog),
                     W.RunAction(w.r, w.sigma, EvalCtx(w, G), a, EvalRule(w, clog)))
    decreases a
  {
    hide Interp, WellSized, Width, World.Valid;
    match a
    case Fail(_) =>
      KConstOk(w, "fail_canFire", [false]);
      KConstOk(w, "fail", Zeroes(sz));
    case Var(k, m) => AnnotOptOk(w, sz, "var_" + k, G[m]);
    case Cst(cst) => ConstOk(w, cst);
    case Seq(r1, r2) =>
      CompileActionOk(w, cr, sig, 0, G, r1, clog);
      var c := CompileAction(w.opt, cr, G, r1, clog);
      CompileActionOk(w, cr, sig, sz, c.ctx, r2, c.erwc);
    case Assign(_, m, ex) =>
      CompileActionOk(w, cr, sig, sig[m], G, ex, clog);
      var c := CompileAction(w.opt, cr, G, ex, clog);
      KConstOk(w, "assign_retVal", []);
      assert EvalCtx(w, c.ctx[m := c.retVal]) == EvalCtx(w, c.ctx)[m := w.Value(c.retVal)];
    case Bind(_, _, _, _) => CompileBindOk(w, cr, sig, sz, G, a, clog);
    case If(_, _, _) => CompileIfOk(w, cr, sig, sz, G, a, clog);
    case Read(p, idx) =>
      ReadOk(w, p, w.g.regs[idx], clog.regs[idx]);
      SetUpdate(w, clog.regs, idx, RwAfterRead(w.opt, p, clog.regs[idx]));
    case Write(p, idx, value) =>
      CompileActionOk(w, cr, sig, w.g.regs[idx], G, value, clog);
      var c := CompileAction(w.opt, cr, G, value, clog);
      var d := c.erwc.regs[idx];
      KConstOk(w, "write_retVal", []);
      CanFireOk(w, p, w.g.regs[idx], c.erwc.canFire, d);
      WriteOk(w, p, w.g.regs[idx], d, c.retVal);
      SetUpdate(w, c.erwc.regs, idx, RwAfterWrite(w.opt, p, d, c.retVal));
    case Unop(fn, arg) =>
      CompileActionOk(w, cr, sig, fn.Arg(), G, arg, clog);
      CompileUnopOk(w, fn, CompileAction(w.opt, cr, G, arg, clog).retVal);
    case Binop(fn, arg1, arg2) =>
      CompileActionOk(w, cr, sig, fn.Arg1(), G, arg1, clog);
      var c1 := CompileAction(w.opt, cr, G, arg1, clog);
      CompileActionOk(w, cr, sig, fn.Arg2(), c1.ctx, arg2, c1.erwc);
      CompileBinopOk(w, fn, c1.retVal, CompileAction(w.opt, cr, c1.ctx, arg2, c1.erwc).retVal);
    case ExternalCall(ext, arg) =>
      CompileActionOk(w, cr, sig, w.g.exts[ext].arg, G, arg, clog);
      ExternalOk(w, ext, CompileAction(w.opt, cr, G, arg, clog).retVal);
    case APos(a) => CompileActionOk(w, cr, sig, sz, G, a, clog);
  }

  lemma {:induction false} CompileBindOk(w: World, cr: seq<Circuit>, sig: seq<nat>, sz: nat, G: seq<Circuit>,
                                         a: Action, clog: RwCircuit)
    requires w.Valid() && StartOk(w, cr) && a.Bind? && Lowered(a) && Typed(w.g, sig, sz, a)
    requires CtxOk(w, sig, G) && RuleOk(w, clog) && Scoped(a, |w.r|, |sig|)
    ensures Computes(w, sig, sz, CompileAction(w.opt, cr, G, a, clog),
                     W.RunAction(w.r, w.sigma, EvalCtx(w, G), a, EvalRule(w, clog)))
    decreases a, 0
  {
    hide Interp, WellSized, Width, World.Valid;
    CompileActionOk(w, cr, sig, a.sz, G, a.ex, clog);
    var c := CompileAction(w.opt, cr, G, a.ex, clog);
    var G' := [c.retVal] + c.ctx;
    assert EvalCtx(w, G') == [w.Value(c.retVal)] + EvalCtx(w, c.ctx);
    CompileActionOk(w, cr, [a.sz] + sig, sz, G', a.body, c.erwc);
    var b := CompileAction(w.opt, cr, G', a.body, c.erwc);
    assert EvalCtx(w, b.ctx[1..]) == EvalCtx(w, b.ctx)[1..];
    assert CtxOk(w, sig, b.ctx[1..]) by {
      forall i | 0 <= i < |sig| ensures w.Is(sig[i], b.ctx[1..][i]) {
        assert w.Is(([a.sz] + sig)[i + 1], b.ctx[i + 1]);
      }
    }
  }

  lemma {:induction false} CompileIfOk(w: World, cr: seq<Circuit>, sig: seq<nat>, sz: nat, G: seq<Circuit>,
                                       a: Action, clog: RwCircuit)
    requires w.Valid() && StartOk(w, cr) && a.If? && Lowered(a) && Typed(w.g, sig, sz, a)
    requires CtxOk(w, sig, G) && RuleOk(w, clog) && Scoped(a, |w.r|, |sig|)
    ensures Computes(w, sig, sz, CompileAction(w.opt, cr, G, a, clog),
                     W.RunAction(w.r, w.sigma, EvalCtx(w, G), a, EvalRule(w, clog)))
    decreases a, 0
  {
    hide Interp, WellSized, Width, World.Valid;
    CompileActionOk(w, cr, sig, 1, G, a.cond, clog);
    var c := CompileAction(w.opt, cr, G, a.cond, clog);
    CompileActionOk(w, cr, sig, sz, c.ctx, a.tbranch, c.erwc);
    CompileActionOk(w, cr, sig, sz, c.ctx, a.fbranch, c.erwc);
    var t := CompileAction(w.opt, cr, c.ctx, a.tbranch, c.erwc);
    var f := CompileAction(w.opt, cr, c.ctx, a.fbranch, c.erwc);
    AnnotOptOk(w, 1, "cond", c.retVal);
    var s := AnnotOpt(w.opt, "cond", c.retVal);
    KMuxOk(w, "if_canFire", 1, s, t.erwc.canFire, f.erwc.canFire);
    MuxRwSetsOk(w, "if_mux", s, t.erwc.regs, f.erwc.regs);
    KMuxOk(w, "if_retVal", sz, s, t.retVal, f.retVal);
    MuxContextOk(w, sig, s, t.ctx, f.ctx);
  }

  // ----- rules in a scheduler -----

  lemma {:induction false} AdapterOk(w: World, input: seq<RwData>)
    requires w.Valid() && SetOk(w, input)
    ensures RuleOk(w, Adapter(w.opt, input)) && EvalRule(w, Adapter(w.opt, input)) == W.Start(EvalSet(w, input))
  {
    hide Interp, WellSized, Width, World.Valid;
    KConstOk(w, "cF_init", [true]);
    KConstOk(w, "init_no_read0", [false]);
    KConstOk(w, "init_no_read1", [false]);
    KConstOk(w, "init_no_write0", [false]);
    KConstOk(w, "init_no_write1", [false]);
  }

  lemma {:induction false} WillFireRegisterOk(w: World, sz: nat, rule: RwData, input: RwData)
    requires w.Valid() && RwOk(w, sz, rule) && RwOk(w, sz, input)
    ensures w.Is(1, WillFireRegister(w.opt, rule, input))
    ensures w.Bit(WillFireRegister(w.opt, rule, input)) == W.NoClash(EvalRw(w, rule), EvalRw(w, input))
  {
    hide Interp, WellSized, Width, World.Valid;
    var writes := KOr(w.opt, "", input.write0, input.write1);
    KOrOk(w, "", input.write0, input.write1);
    KNotOk(w, "read0_willFire_no_writes", writes);
    KImplOk(w, "read0_willFire_of_canFire", rule.read0, KNot(w.opt, "read0_willFire_no_writes", writes));
    var all := KOr(w.opt, "", writes, input.read1);
    KOrOk(w, "", writes, input.read1);
    KNotOk(w, "write0_willFire_no_writes_no_read1", all);
    KImplOk(w, "write0_willFire_of_canFire", rule.write0, KNot(w.opt, "write0_willFire_no_writes_no_read1", all));
    var rw := KOr(w.opt, "", rule.read1, rule.write1);
    KOrOk(w, "", rule.read1, rule.write1);
    KNotOk(w, "read_write1_willFire_no_write1", input.write1);
    KImplOk(w, "read_write1_willFire_of_canFire", rw, KNot(w.opt, "read_write1_willFire_no_write1", input.write1));
    var read0 := KImpl(w.opt, "read0_willFire_of_canFire", rule.read0, KNot(w.opt, "read0_willFire_no_writes", writes));
    var write0 := KImpl(w.opt, "write0_willFire_of_canFire", rule.write0,
                        KNot(w.opt, "write0_willFire_no_writes_no_read1", all));
    var rw1 := KImpl(w.opt, "read_write1_willFire_of_canFire", rw,
                     KNot(w.opt, "read_write1_willFire_no_write1", input.write1));
    KAndOk(w, "", read0, write0);
    KAndOk(w, "", KAnd(w.opt, "", read0, write0), rw1);
  }

  lemma {:induction false} WillFireFromOk(w: World, rl: RuleName, rule: RwCircuit, input: seq<RwData>, i: nat)
    requires w.Valid() && RuleOk(w, rule) && SetOk(w, input) && i <= |input|
    ensures w.Is(1, WillFireFrom(w.opt, rl, rule, input, i))
    ensures w.Bit(WillFireFrom(w.opt, rl, rule, input, i)) ==
            (w.Bit(rule.canFire) &&
             forall j :: i <= j < |input| ==> W.NoClash(EvalRw(w, rule.regs[j]), EvalRw(w, input[j])))
    decreases |input| - i
  {
    hide Interp, WellSized, Width, World.Valid, World.Is, KAnd, WillFireRegister, W.NoClash;
    if i < |input| {
      WillFireFromOk(w, rl, rule, input, i + 1);
      WillFireRegisterOk(w, w.g.regs[i], rule.regs[i], input[i]);
      KAndOk(w, "wF_" + rl, WillFireFrom(w.opt, rl, rule, input, i + 1),
             WillFireRegister(w.opt, rule.regs[i], input[i]));
    } else {
      AnnotOk(w, 1, "cF_" + rl, rule.canFire);
    }
  }

  lemma {:induction false} WillFireOk(w: World, rl: RuleName, rule: RwCircuit, input: seq<RwData>)
    requires w.Valid() && RuleOk(w, rule) && SetOk(w, input)
    ensures w.Is(1, WillFireOfCanFire(w.opt, rl, rule, input))
    ensures w.Bit(WillFireOfCanFire(w.opt, rl, rule, input)) == W.WillFire(EvalRule(w, rule), EvalSet(w, input))
  {
    hide Interp, WellSized, Width, World.Valid;
    WillFireFromOk(w, rl, rule, input, 0);
    AnnotOk(w, 1, "wF_" + rl, WillFireFrom(w.opt, rl, rule, input, 0));
    var ruleWires, inputWires := EvalSet(w, rule.regs), EvalSet(w, input);
    assert forall j :: 0 <= j < |input| ==> ruleWires[j] == EvalRw(w, rule.regs[j]) && inputWires[j] == EvalRw(w, input[j]);
  }

  lemma {:induction false} UpdateAccumulatedOk(w: World, rule: seq<RwData>, acc: seq<RwData>)
    requires w.Valid() && SetOk(w, rule) && SetOk(w, acc)
    ensures SetOk(w, UpdateAccumulated(w.opt, rule, acc))
    ensures EvalSet(w, UpdateAccumulated(w.opt, rule, acc)) == W.Accumulate(EvalSet(w, rule), EvalSet(w, acc))
  {
    hide Interp, WellSized, Width, World.Valid;
    var an := "compute_accumulated_rwset";
    forall i | 0 <= i < |rule|
      ensures RwOk(w, w.g.regs[i], UpdateAccumulated(w.opt, rule, acc)[i])
      ensures EvalRw(w, UpdateAccumulated(w.opt, rule, acc)[i]) == W.Accumulate(EvalSet(w, rule), EvalSet(w, acc))[i]
    {
      KOrOk(w, an, rule[i].read0, acc[i].read0);
      KOrOk(w, an, rule[i].read1, acc[i].read1);
      KOrOk(w, an, rule[i].write0, acc[i].write0);
      KOrOk(w, an, rule[i].write1, acc[i].write1);
    }
  }

  // ----- external rules -----

  /** Field by field, what the compiler puts in place of a rule's wires. */
  lemma {:induction false} WrappedFields(rl: RuleName, rs: seq<nat>, bundle: seq<RwData>, reg: nat, d: RwData, f: RwField)
    ensures FieldOf(WrapRwData(rl, rs, bundle, reg, d), f) ==
            if reg in rs then CBundleRef(rl, rs, bundle, RegisterField(reg, f), FieldOf(d, f)) else FieldOf(d, f)
  {
  }

  function FieldOf(d: RwData, f: RwField): Circuit {
    match f
    case Read0Field => d.read0
    case Read1Field => d.read1
    case Write0Field => d.write0
    case Write1Field => d.write1
    case Data0Field => d.data0
    case Data1Field => d.data1
  }

  lemma WrapExternalSized(w: World, rs: seq<nat>, input: seq<RwData>, c: RwCircuit, rl: RuleName)
    requires RuleOk(w, c) && |c.regs| == |input| && forall reg :: reg in rs ==> reg < |input|
    ensures RuleOk(w, WrapExternal(rs, input, c, rl))
    ensures w.m.ByCircuit? ==> EvalRule(w, WrapExternal(rs, input, c, rl)) == EvalRule(w, c)
  {
    var c' := WrapExternal(rs, input, c, rl);
    forall i | 0 <= i < |c.regs|
      ensures RwOk(w, w.g.regs[i], c'.regs[i]) && (w.m.ByCircuit? ==> EvalRw(w, c'.regs[i]) == EvalRw(w, c.regs[i]))
    {
    }
  }

  /** `d` with data wires of the widths of `own`. */
  function Fitted(d: W.WireData, own: W.WireData): W.WireData {
    d.(data0 := Slice(0, |own.data0|, d.data0), data1 := Slice(0, |own.data1|, d.data1))
  }

  /** A reference to a bundle is the wire that the module drives. */
  lemma {:induction false} ReferenceValue(w: World, rs: seq<nat>, input: seq<RwData>, rl: RuleName, field: BundleField, c: Circuit)
    requires w.m.ByModule? && forall reg :: reg in rs ==> reg < |input|
    ensures w.Value(CBundleRef(rl, rs, BundleOf(rs, input), field, c)) ==
            Slice(0, |w.Value(c)|, Driven(w.m.ext(rl, rs, Bundle(EvalSet(w, input), rs)), rs, field))
  {
    var bundle := BundleOf(rs, input);
    var wires := seq(|bundle|, i requires 0 <= i < |bundle| =>
      W.WireData(Single(Interp(w.r, w.sigma, w.m, bundle[i].read0)), Single(Interp(w.r, w.sigma, w.m, bundle[i].read1)),
                 Single(Interp(w.r, w.sigma, w.m, bundle[i].write0)), Single(Interp(w.r, w.sigma, w.m, bundle[i].write1)),
                 Interp(w.r, w.sigma, w.m, bundle[i].data0), Interp(w.r, w.sigma, w.m, bundle[i].data1)));
    forall i | 0 <= i < |rs| ensures wires[i] == Bundle(EvalSet(w, input), rs)[i] {
      assert rs[i] in rs && bundle[i] == input[rs[i]] && EvalSet(w, input)[rs[i]] == EvalRw(w, input[rs[i]]);
    }
    assert wires == Bundle(EvalSet(w, input), rs);
  }

  lemma SliceBit(b: bool)
    ensures Slice(0, 1, [b]) == [b]
  {
  }

  lemma SliceAll(b: Bits)
    ensures Slice(0, |b|, b) == b
  {
  }

  lemma {:induction false} WrappedWires(w: World, rs: seq<nat>, input: seq<RwData>, c: RwCircuit, rl: RuleName, i: nat)
    requires w.Valid() && w.m.ByModule? && RuleOk(w, c) && |c.regs| == |input| && i < |input|
    requires forall reg :: reg in rs ==> reg < |input|
    requires |w.m.ext(rl, rs, Bundle(EvalSet(w, input), rs)).regs| == |rs|
    ensures var x := Merged(w.m.ext(rl, rs, Bundle(EvalSet(w, input), rs)), rs, EvalRule(w, c));
            EvalRw(w, WrapExternal(rs, input, c, rl).regs[i]) == Fitted(x.regs[i], EvalRw(w, c.regs[i]))
  {
    hide Interp, WellSized, Width, World.Valid, World.Value, RwOk, Slice, Bundle, BundleOf, Driven, Fitted;
    var d := c.regs[i];
    BitWidths(w, w.g.regs[i], d);
    if i in rs {
      DrivenWires(w, rs, input, rl, i, d);
    } else {
      FittedSelf(EvalRw(w, d));
    }
  }

  lemma FittedSelf(d: W.WireData)
    ensures Fitted(d, d) == d
  {
    SliceAll(d.data0);
    SliceAll(d.data1);
  }

  lemma {:induction false} DrivenWires(w: World, rs: seq<nat>, input: seq<RwData>, rl: RuleName, reg: nat, d: RwData)
    requires w.m.ByModule? && (forall x :: x in rs ==> x < |input|) && reg in rs
    requires |w.m.ext(rl, rs, Bundle(EvalSet(w, input), rs)).regs| == |rs|
    requires |w.Value(d.read0)| == |w.Value(d.read1)| == |w.Value(d.write0)| == |w.Value(d.write1)| == 1
    ensures EvalRw(w, WrapRwData(rl, rs, BundleOf(rs, input), reg, d)) ==
            Fitted(w.m.ext(rl, rs, Bundle(EvalSet(w, input), rs)).regs[Index(rs, reg)], EvalRw(w, d))
  {
    hide Interp, World.Value, Slice, Bundle, BundleOf, Driven, EvalRw, Fitted, WrapRwData;
    var o := w.m.ext(rl, rs, Bundle(EvalSet(w, input), rs));
    var x := o.regs[Index(rs, reg)];
    forall f: RwField
      ensures w.Value(CBundleRef(rl, rs, BundleOf(rs, input), RegisterField(reg, f), FieldOf(d, f))) ==
              Slice(0, |w.Value(FieldOf(d, f))|, WireOf(x, f))
    {
      ReferenceValue(w, rs, input, rl, RegisterField(reg, f), FieldOf(d, f));
      DrivenField(o, rs, reg, f);
    }
    WrappedEval(w, rl, rs, BundleOf(rs, input), reg, d, x);
  }

  lemma DrivenField(o: W.RuleWires, rs: seq<nat>, reg: nat, f: RwField)
    requires reg in rs && |o.regs| == |rs|
    ensures Driven(o, rs, RegisterField(reg, f)) == WireOf(o.regs[Index(rs, reg)], f)
  {
  }

  lemma BitWidths(w: World, sz: nat, d: RwData)
    requires w.Valid() && RwOk(w, sz, d)
    ensures |w.Value(d.read0)| == |w.Value(d.read1)| == |w.Value(d.write0)| == |w.Value(d.write1)| == 1
  {
    OptOk(w, 1, d.read0);
    OptOk(w, 1, d.read1);
    OptOk(w, 1, d.write0);
    OptOk(w, 1, d.write1);
  }

  lemma {:induction false} WrappedEval(w: World, rl: RuleName, rs: seq<nat>, bundle: seq<RwData>, reg: nat, d: RwData, x: W.WireData)
    requires reg in rs
    requires |w.Value(d.read0)| == |w.Value(d.read1)| == |w.Value(d.write0)| == |w.Value(d.write1)| == 1
    requires forall f :: w.Value(CBundleRef(rl, rs, bundle, RegisterField(reg, f), FieldOf(d, f))) ==
                         Slice(0, |w.Value(FieldOf(d, f))|, WireOf(x, f))
    ensures EvalRw(w, WrapRwData(rl, rs, bundle, reg, d)) == Fitted(x, EvalRw(w, d))
  {
    hide Interp, World.Value, Slice;
    SliceBit(true);
    SliceBit(false);
    var ref := (f: RwField) => w.Value(CBundleRef(rl, rs, bundle, RegisterField(reg, f), FieldOf(d, f)));
    assert ref(Read0Field) == Slice(0, 1, [x.read0]) && ref(Read1Field) == Slice(0, 1, [x.read1]);
    assert ref(Write0Field) == Slice(0, 1, [x.write0]) && ref(Write1Field) == Slice(0, 1, [x.write1]);
    assert ref(Data0Field) == Slice(0, |w.Value(d.data0)|, x.data0) && ref(Data1Field) == Slice(0, |w.Value(d.data1)|, x.data1);
  }

  /** `w` decides as `w'` does, and is the same when it fires. */
  ghost predicate Acts(w: W.RuleWires, w': W.RuleWires, input: seq<W.WireData>)
    requires |w.regs| == |w'.regs| == |input|
  {
    W.WillFire(w, input) == W.WillFire(w', input) && (W.WillFire(w', input) ==> w == w')
  }

  lemma {:induction false} FittedActs(x: W.RuleWires, y: W.RuleWires, w: W.RuleWires, input: seq<W.WireData>)
    requires |x.regs| == |y.regs| == |w.regs| == |input| && y.canFire == x.canFire && Acts(x, w, input)
    requires forall i :: 0 <= i < |y.regs| ==> y.regs[i] == Fitted(x.regs[i], w.regs[i])
    ensures Acts(y, w, input)
  {
    forall i | 0 <= i < |input| ensures W.NoClash(y.regs[i], input[i]) == W.NoClash(x.regs[i], input[i]) {
      assert y.regs[i] == Fitted(x.regs[i], w.regs[i]);
    }
    if W.WillFire(w, input) {
      forall i | 0 <= i < |y.regs| ensures y.regs[i] == w.regs[i] {
        assert y.regs[i] == Fitted(x.regs[i], w.regs[i]);
        SliceAll(w.regs[i].data0);
        SliceAll(w.regs[i].data1);
      }
      assert y == w;
    }
  }

  lemma {:induction false} WrapExternalOk(w: World, rs: seq<nat>, input: seq<RwData>, c: RwCircuit, rl: RuleName)
    requires w.Valid() && w.m.ByModule? && RuleOk(w, c) && SetOk(w, input) && forall reg :: reg in rs ==> reg < |input|
    requires Stands(w.m.ext(rl, rs, Bundle(EvalSet(w, input), rs)), rs, EvalRule(w, c), EvalSet(w, input))
    ensures Acts(EvalRule(w, WrapExternal(rs, input, c, rl)), EvalRule(w, c), EvalSet(w, input))
  {
    var o := w.m.ext(rl, rs, Bundle(EvalSet(w, input), rs));
    var (x, y) := (Merged(o, rs, EvalRule(w, c)), EvalRule(w, WrapExternal(rs, input, c, rl)));
    OptOk(w, 1, c.canFire);
    ReferenceValue(w, rs, input, rl, CanFireField, c.canFire);
    SliceBit(o.canFire);
    hide Interp, WellSized, Width, World.Valid, RwOk, W.WillFire;
    forall i | 0 <= i < |y.regs| ensures y.regs[i] == Fitted(x.regs[i], EvalRule(w, c).regs[i]) {
      WrappedWires(w, rs, input, c, rl, i);
    }
    FittedActs(x, y, EvalRule(w, c), EvalSet(w, input));
  }

  // ----- schedulers -----

  /** A design whose rules are typed, whose starting circuits are right and whose
      external rules are implemented by their modules. */
  ghost predicate DesignOk(w: World, d: Design) {
    && w.Valid() && d.opt == w.opt && StartOk(w, d.cr)
    && Compilable(d) && TypedRules(w.g, d.rules) && W.Runnable(w.r, d.rules)
    && Faithful(w.m, w.sigma, |w.r|, d.rules, d.external)
  }

  lemma {:induction false} CompileRuleSized(w: World, d: Design, rl: RuleName, input: seq<RwData>)
    requires DesignOk(w, d) && SetOk(w, input)
    ensures RuleOk(w, CompileRule(d, rl, input))
  {
    hide Interp, WellSized, Width, World.Valid, Faithful;
    var rule := d.rules(rl);
    AdapterOk(w, input);
    assert Typed(w.g, [], 0, rule);
    CompileActionOk(w, d.cr, [], 0, [], rule, Adapter(d.opt, input));
    RegistersInRange(rule, |d.cr|);
    WrapExternalSized(w, ActionRegisters(rule), input, CompileAction(d.opt, d.cr, [], rule, Adapter(d.opt, input)).erwc, rl);
  }

  /** Against wires that show the log of the cycle, a rule's circuits, or the module in
      their place, act as the rule does. */
  lemma {:induction false} CompileRuleOk(w: World, d: Design, rl: RuleName, input: seq<RwData>, L: Log)
    requires DesignOk(w, d) && SetOk(w, input) && |L| == |w.r| && W.ShowsAll(EvalSet(w, input), L, w.r)
    ensures RuleOk(w, CompileRule(d, rl, input))
    ensures Acts(EvalRule(w, CompileRule(d, rl, input)), W.RunRule(w.r, w.sigma, d.rules(rl), EvalSet(w, input)), EvalSet(w, input))
  {
    hide Interp, WellSized, Width, World.Valid, W.ShowsAll;
    var rule := d.rules(rl);
    AdapterOk(w, input);
    assert Typed(w.g, [], 0, rule);
    CompileActionOk(w, d.cr, [], 0, [], rule, Adapter(d.opt, input));
    var c := CompileAction(d.opt, d.cr, [], rule, Adapter(d.opt, input)).erwc;
    assert EvalCtx(w, []) == [];
    RegistersInRange(rule, |d.cr|);
    var rs := ActionRegisters(rule);
    WrapExternalSized(w, rs, input, c, rl);
    if d.external(rl) && w.m.ByModule? {
      assert Implements(w.m.ext, w.sigma, rl, rule, w.r, EvalSet(w, input));
      WrapExternalOk(w, rs, input, c, rl);
    }
  }

  /** A rule's will-fire circuit is 1 exactly when the rule succeeds against the
      scheduler's log, though its circuits keep computing after a failure; and then
      the accumulated circuits stand for the log with the rule's events on top. */
  lemma {:induction false} RuleCircuitFires(w: World, d: Design, rl: RuleName, input: seq<RwData>, L: Log)
    requires DesignOk(w, d) && SetOk(w, input) && |L| == |w.r| && W.ShowsAll(EvalSet(w, input), L, w.r)
    ensures var c, o := CompileRule(d, rl, input), InterpRule(w.r, w.sigma, L, d.rules(rl));
            && RuleOk(w, c) && SetOk(w, UpdateAccumulated(d.opt, c.regs, input)) && w.Is(1, WillFireOfCanFire(d.opt, rl, c, input))
            && w.Bit(WillFireOfCanFire(d.opt, rl, c, input)) == o.Some? ==
               W.WillFire(W.RunRule(w.r, w.sigma, d.rules(rl), EvalSet(w, input)), EvalSet(w, input))
            && (o.Some? ==>
                  && EvalSet(w, UpdateAccumulated(d.opt, c.regs, input)) ==
                     W.Accumulate(W.RunRule(w.r, w.sigma, d.rules(rl), EvalSet(w, input)).regs, EvalSet(w, input))
                  && W.ShowsAll(EvalSet(w, UpdateAccumulated(d.opt, c.regs, input)), App(o.value, L), w.r))
  {
    hide Interp, WellSized, Width, World.Valid, CompileRule, Faithful;
    CompileRuleOk(w, d, rl, input, L);
    var c := CompileRule(d, rl, input);
    WillFireOk(w, rl, c, input);
    UpdateAccumulatedOk(w, c.regs, input);
    W.RuleWillFire(w.r, w.sigma, L, d.rules(rl), EvalSet(w, input));
  }

  lemma {:induction false} CompileSchedulerSized(w: World, d: Design, s: Scheduler, input: seq<RwData>)
    requires DesignOk(w, d) && SetOk(w, input)
    ensures SetOk(w, CompileSchedulerCircuit(d, s, input))
    decreases s
  {
    hide Interp, WellSized, Width, World.Valid, CompileRule, Faithful;
    match s
    case Done =>
    case Cons(rl, s) =>
      TrySized(w, d, rl, input);
      var c := CompileRule(d, rl, input);
      var acc := UpdateAccumulated(d.opt, c.regs, input);
      var willFire := WillFireOfCanFire(d.opt, rl, c, input);
      MuxRwSetsOk(w, rl + "_out", willFire, acc, input);
      CompileSchedulerSized(w, d, s, MuxRwSets(d.opt, rl + "_out", willFire, acc, input));
    case Try(rl, st, sf) =>
      TrySized(w, d, rl, input);
      var c := CompileRule(d, rl, input);
      var acc := UpdateAccumulated(d.opt, c.regs, input);
      CompileSchedulerSized(w, d, st, acc);
      CompileSchedulerSized(w, d, sf, input);
      MuxRwSetsOk(w, "mux_subschedulers", WillFireOfCanFire(d.opt, rl, c, input),
                  CompileSchedulerCircuit(d, st, acc), CompileSchedulerCircuit(d, sf, input));
    case SPos(s) => CompileSchedulerSized(w, d, s, input);
  }

  lemma {:induction false} TrySized(w: World, d: Design, rl: RuleName, input: seq<RwData>)
    requires DesignOk(w, d) && SetOk(w, input)
    ensures var c := CompileRule(d, rl, input);
            && RuleOk(w, c) && SetOk(w, UpdateAccumulated(d.opt, c.regs, input)) && w.Is(1, WillFireOfCanFire(d.opt, rl, c, input))
  {
    hide Interp, WellSized, Width, World.Valid, CompileRule, Faithful;
    CompileRuleSized(w, d, rl, input);
    var c := CompileRule(d, rl, input);
    UpdateAccumulatedOk(w, c.regs, input);
    WillFireOk(w, rl, c, input);
  }

  lemma {:induction false} CompileSchedulerCircuitOk(w: World, d: Design, s: Scheduler, input: seq<RwData>, L: Log)
    requires DesignOk(w, d) && SetOk(w, input) && |L| == |w.r| && W.ShowsAll(EvalSet(w, input), L, w.r)
    ensures SetOk(w, CompileSchedulerCircuit(d, s, input))
    ensures EvalSet(w, CompileSchedulerCircuit(d, s, input)) ==
            W.RunScheduler(w.r, w.sigma, d.rules, s, EvalSet(w, input))
    decreases s
  {
    hide Interp, WellSized, Width, World.Valid, CompileRule, Faithful, W.ShowsAll, W.RunRule, InterpRule;
    CompileSchedulerSized(w, d, s, input);
    match s
    case Done =>
    case Cons(rl, s) =>
      RuleCircuitFires(w, d, rl, input, L);
      var c := CompileRule(d, rl, input);
      var acc := UpdateAccumulated(d.opt, c.regs, input);
      var willFire := WillFireOfCanFire(d.opt, rl, c, input);
      MuxRwSetsOk(w, rl + "_out", willFire, acc, input);
      var o := InterpRule(w.r, w.sigma, L, d.rules(rl));
      CompileSchedulerCircuitOk(w, d, s, MuxRwSets(d.opt, rl + "_out", willFire, acc, input),
                                if o.Some? then App(o.value, L) else L);
    case Try(rl, st, sf) =>
      RuleCircuitFires(w, d, rl, input, L);
      var c := CompileRule(d, rl, input);
      var acc := UpdateAccumulated(d.opt, c.regs, input);
      var o := InterpRule(w.r, w.sigma, L, d.rules(rl));
      if o.Some? { CompileSchedulerCircuitOk(w, d, st, acc, App(o.value, L)); }
      else { CompileSchedulerCircuitOk(w, d, sf, input, L); }
      CompileSchedulerSized(w, d, st, acc);
      CompileSchedulerSized(w, d, sf, input);
      MuxRwSetsOk(w, "mux_subschedulers", WillFireOfCanFire(d.opt, rl, c, input),
                  CompileSchedulerCircuit(d, st, acc), CompileSchedulerCircuit(d, sf, input));
    case SPos(s) => CompileSchedulerCircuitOk(w, d, s, input, L);
  }

  lemma {:induction false} InitOk(w: World, d: Design)
    requires DesignOk(w, d)
    ensures SetOk(w, InitSchedulerCircuit(d, w.g.regs))
    ensures EvalSet(w, InitSchedulerCircuit(d, w.g.regs)) == W.Init(w.r, w.g.regs)
  {
    hide Interp, WellSized, Width, World.Valid, Faithful;
    KConstOk(w, "sched_init_no_read0", [false]);
    KConstOk(w, "sched_init_no_read1", [false]);
    KConstOk(w, "sched_init_no_write0", [false]);
    KConstOk(w, "sched_init_no_write1", [false]);
    forall i | 0 <= i < |d.cr|
      ensures RwOk(w, w.g.regs[i], InitSchedulerCircuit(d, w.g.regs)[i])
      ensures EvalRw(w, InitSchedulerCircuit(d, w.g.regs)[i]) == W.Init(w.r, w.g.regs)[i]
    {
      AnnotOptOk(w, w.g.regs[i], "sched_init_data0_is_reg", d.cr[i]);
      ConstOk(w, Zeroes(w.g.regs[i]));
      AnnotOptOk(w, w.g.regs[i], "sched_init_no_data1", CConst(Zeroes(w.g.regs[i])));
    }
  }

  /** With no events yet, the initial wires show the empty log. */
  lemma InitShows(w: World)
    requires w.Valid()
    ensures W.ShowsAll(W.Init(w.r, w.g.regs), Empty(|w.r|), w.r)
  {
  }

  /** A register whose wires show its log is committed to its newest value. */
  lemma {:induction false} CommitOk(w: World, regs: seq<RwData>, L: Log, i: nat)
    requires w.Valid() && SetOk(w, regs) && |L| == |w.r| && i < |w.r| && LogDiscipline.Disciplined(L[i])
    requires W.ShowsAll(EvalSet(w, regs), L, w.r)
    ensures i < |regs| && w.Is(w.g.regs[i], CommitRwData(w.opt, regs[i]))
    ensures w.Value(CommitRwData(w.opt, regs[i])) == CommitUpdate(w.r, L)[i]
  {
    hide Interp, WellSized, Width;
    KMuxOk(w, "commit_write1", w.g.regs[i], regs[i].write1, regs[i].data1, regs[i].data0);
    var e := EvalSet(w, regs)[i];
    assert W.Shows(e, L[i], [], w.r[i]);
    assert L[i] + [] == L[i];
    LogDiscipline.DisciplinedLatest(L[i]);
    LatestAtIffHasWrite(L[i], P1);
  }

  /** Each register's circuit evaluates to that register after the cycle. */
  lemma {:induction false} CompileSchedulerCorrect(w: World, d: Design, s: Scheduler)
    requires DesignOk(w, d)
    ensures forall i :: 0 <= i < |w.r| ==>
      var c := CompileScheduler(d, w.g.regs, s)[i];
      w.Is(w.g.regs[i], c) && w.Value(c) == InterpCycle(w.sigma, d.rules, s, w.r)[i]
  {
    hide Interp, WellSized, Width, World.Valid, SetOk, W.ShowsAll, World.Is, World.Value, Faithful;
    var L := InterpScheduler(w.r, w.sigma, d.rules, Empty(|w.r|), s);
    InitOk(w, d);
    InitShows(w);
    CompileSchedulerCircuitOk(w, d, s, InitSchedulerCircuit(d, w.g.regs), Empty(|w.r|));
    W.SchedulerWires(w.r, w.sigma, d.rules, Empty(|w.r|), s, W.Init(w.r, w.g.regs));
    LogDiscipline.CycleDisciplined(w.r, w.sigma, d.rules, s);
    var regs := CompileSchedulerCircuit(d, s, InitSchedulerCircuit(d, w.g.regs));
    forall i | 0 <= i < |w.r|
      ensures w.Is(w.g.regs[i], CompileScheduler(d, w.g.regs, s)[i])
      ensures w.Value(CompileScheduler(d, w.g.regs, s)[i]) == CommitUpdate(w.r, L)[i]
    {
      CommitOk(w, regs, L, i);
    }
  }
}
