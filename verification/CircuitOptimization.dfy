/** Local circuit optimizations: each rewrites the root of a circuit, keeps its
    meaning and its width, and never makes it larger. */
module CircuitOptimization {
  import opened BitVectors
  import opened Primitives
  import opened Syntax
  import opened Logs
  import opened Semantics
  import opened Circuits

  /** A quick and possibly incomplete comparison of two circuits of equal width. */
  type Equivalence = (Circuit, Circuit) -> bool

  function Unannot(c: Circuit): Circuit { if c.CAnnot? then Unannot(c.c) else c }

  function AsConst(c: Circuit): Option<Bits> {
    var c' := Unannot(c);
    if c'.CConst? then Some(c'.cst) else None
  }

  predicate IsConst(c: Circuit, b: Bits) { AsConst(c) == Some(b) }

  predicate SameUnannot(eq: Equivalence, c1: Circuit, c2: Circuit) { eq(Unannot(c1), Unannot(c2)) }

  function MkNot(c: Circuit): Circuit { CUnop(Not(1), c) }

  function MkAnd(c1: Circuit, c2: Circuit): Circuit { CBinop(And(1), c1, c2) }

  function MkOr(c1: Circuit, c2: Circuit): Circuit { CBinop(Or(1), c1, c2) }

  // ----- the passes -----

  function OptIdentical(eq: Equivalence, c: Circuit): Circuit {
    match c
    case CMux(_, c1, c2) => if SameUnannot(eq, c1, c2) then c1 else c
    case CBinop(And(_), c1, c2) => if SameUnannot(eq, c1, c2) then c1 else c
    case CBinop(Or(_), c1, c2) => if SameUnannot(eq, c1, c2) then c1 else c
    case _ => c
  }

  function OptMuxelimRedundantL(eq: Equivalence, c: Circuit): Circuit {
    match c
    case CMux(k, c1, c2) =>
      (match Unannot(c1)
       case CMux(k', c11, _) => if SameUnannot(eq, k, k') then CMux(k, c11, c2) else c
       case _ => c)
    case _ => c
  }

  function OptMuxelimRedundantR(eq: Equivalence, c: Circuit): Circuit {
    match c
    case CMux(k, c1, c2) =>
      (match Unannot(c2)
       case CMux(k', _, c22) => if SameUnannot(eq, k, k') then CMux(k, c1, c22) else c
       case _ => c)
    case _ => c
  }

  function OptMuxelimNestedL(eq: Equivalence, c: Circuit): Circuit {
    match c
    case CMux(k, c1, c2) =>
      (match Unannot(c1)
       case CMux(k', c11, c12) =>
         if SameUnannot(eq, c11, c2) then CMux(MkAnd(k, MkNot(k')), c12, c2)
         else if SameUnannot(eq, c12, c2) then CMux(MkAnd(k, k'), c11, c2)
         else c
       case _ => c)
    case _ => c
  }

  function OptMuxelimNestedR(eq: Equivalence, c: Circuit): Circuit {
    match c
    case CMux(k, c1, c2) =>
      (match Unannot(c2)
       case CMux(k', c21, c22) =>
         if SameUnannot(eq, c1, c21) then CMux(MkOr(k, k'), c1, c22)
         else if SameUnannot(eq, c1, c22) then CMux(MkOr(k, MkNot(k')), c1, c21)
         else c
       case _ => c)
    case _ => c
  }

  function OptMuxelim(eq: Equivalence, c: Circuit): Circuit {
    OptMuxelimNestedR(eq, OptMuxelimNestedL(eq, OptMuxelimRedundantR(eq, OptMuxelimRedundantL(eq, c))))
  }

  function OptConstpropGates(c: Circuit): Circuit {
    match Unannot(c)
    case CUnop(Not(_), a) =>
      (match AsConst(a)
       case Some(b) => CConst(BitNot(b))
       case None => c)
    case CBinop(And(sz), c1, c2) =>
      if IsConst(c1, Zeroes(sz)) || IsConst(c2, Zeroes(sz)) then CConst(Zeroes(sz))
      else if IsConst(c1, Ones(sz)) then c2
      else if IsConst(c2, Ones(sz)) then c1
      else c
    case CBinop(Or(sz), c1, c2) =>
      if IsConst(c1, Ones(sz)) || IsConst(c2, Ones(sz)) then CConst(Ones(sz))
      else if IsConst(c1, Zeroes(sz)) then c2
      else if IsConst(c2, Zeroes(sz)) then c1
      else c
    case CMux(select, c1, c2) =>
      if IsConst(select, [true]) then c1
      else if IsConst(select, [false]) then c2
      else c
    case _ => c
  }

  function OptMuxBit1(g: Sigs, c: Circuit): Circuit {
    match Unannot(c)
    case CMux(s, c1, c2) =>
      if Width(g, c) != 1 then c
      else if IsConst(c1, [true]) && IsConst(c2, [false]) then s
      else if IsConst(c1, [true]) then MkOr(s, c2)
      else if IsConst(c1, [false]) && IsConst(c2, [true]) then MkNot(s)
      else if IsConst(c2, [false]) then MkAnd(s, c1)
      else c
    case _ => c
  }

  function OptConstprop(g: Sigs, c: Circuit): Circuit {
    if Width(g, c) == 0 then CConst([]) else OptMuxBit1(g, OptConstpropGates(c))
  }

  function SimplifySlice(sz: nat, offset: nat, width: nat, a: Circuit, c0: Circuit): Circuit {
    if offset == 0 && sz == width then a
    else
      match Unannot(a)
      case CBinop(Cat(sz1, sz2), c1, c2) =>
        if offset == 0 && sz2 == width then c2
        else if offset == sz2 && sz1 == width then c1
        else c0
      case _ => c0
  }

  /** A one-bit comparison with a constant; `one` is the constant that keeps the bit. */
  function SimplifyEq(one: bool, c1: Circuit, c2: Circuit, c0: Circuit): Circuit {
    if IsConst(c1, [one]) then c2
    else if IsConst(c1, [!one]) then MkNot(c2)
    else if IsConst(c2, [one]) then c1
    else if IsConst(c2, [!one]) then MkNot(c1)
    else c0
  }

  function OptSimplify(c: Circuit): Circuit {
    match Unannot(c)
    case CUnop(Slc(sz, offset, width), a) => SimplifySlice(sz, offset, width, a, c)
    case CUnop(Not(_), a) =>
      (match Unannot(a)
       case CUnop(Not(_), a') => a'
       case _ => c)
    case CBinop(Select(sz), c1, _) => if sz == 1 then c1 else c
    case CBinop(Cat(sz1, sz2), c1, c2) => if sz1 == 0 then c2 else if sz2 == 0 then c1 else c
    case CBinop(EqBits(sz, negate), c1, c2) => if sz == 1 then SimplifyEq(!negate, c1, c2, c) else c
    case _ => c
  }

  function OptPartialEval(c: Circuit): Circuit {
    match Unannot(c)
    case CUnop(fn, a) =>
      (match AsConst(a)
       case Some(v) => CConst(Sigma1(fn, v))
       case None => c)
    case CBinop(fn, a1, a2) =>
      (match (AsConst(a1), AsConst(a2))
       case (Some(v1), Some(v2)) => CConst(Sigma2(fn, v1, v2))
       case _ => c)
    case _ => c
  }

  // ----- composition and iteration -----

  function Compose(o1: Optimizer, o2: Optimizer): Optimizer { c => o2(o1(c)) }

  function OptIter(eq: Equivalence, o: Optimizer, fuel: nat, c: Circuit): Circuit {
    if fuel == 0 then c
    else
      var c' := o(c);
      if eq(c, c') then c else OptIter(eq, o, fuel - 1, c')
  }

  function OptAll(g: Sigs, eq: Equivalence): Optimizer {
    Compose(c => OptConstprop(g, c),
            Compose(c => OptIdentical(eq, c),
                    Compose(c => OptMuxelim(eq, c),
                            Compose(OptSimplify, OptPartialEval))))
  }

  function OptAllIterated(g: Sigs, eq: Equivalence, fuel: nat): Optimizer {
    c => OptIter(eq, OptAll(g, eq), fuel, c)
  }

  // ----- what a pass has to satisfy -----

  /** Everything fixed while a circuit is rewritten. */
  datatype Setting = Setting(g: Sigs, r: RegFile, sigma: ExtFun, m: Meaning, eq: Equivalence) {
    ghost predicate Valid() { TypedRegs(g, r) && TypedExts(g, sigma) && SoundAt(g, r, sigma, m, eq) }
  }

  ghost predicate SoundAt(g: Sigs, r: RegFile, sigma: ExtFun, m: Meaning, eq: Equivalence) {
    forall c1, c2 :: WellSized(g, c1) && WellSized(g, c2) && Width(g, c1) == Width(g, c2) && eq(c1, c2) ==>
      Interp(r, sigma, m, c1) == Interp(r, sigma, m, c2)
  }

  /** Circuits that the comparison identifies have the same meaning. */
  ghost predicate Sound(g: Sigs, sigma: ExtFun, m: Meaning, eq: Equivalence) {
    forall r :: TypedRegs(g, r) ==> SoundAt(g, r, sigma, m, eq)
  }

  function NodeCount(c: Circuit): (n: nat)
    ensures n > 0
  {
    match c
    case CMux(select, c1, c2) => 1 + NodeCount(select) + NodeCount(c1) + NodeCount(c2)
    case CUnop(_, a) => 1 + NodeCount(a)
    case CBinop(_, a1, a2) => 1 + NodeCount(a1) + NodeCount(a2)
    case CExternal(_, arg) => 1 + NodeCount(arg)
    case CBundleRef(_, _, _, _, c) => 1 + NodeCount(c)
    case CAnnot(_, c) => 1 + NodeCount(c)
    case _ => 1
  }

  /** `c'` can replace `c`: same width, same meaning, no larger. */
  ghost predicate Improves(st: Setting, c: Circuit, c': Circuit) {
    SameMeaning(st.g, st.r, st.sigma, st.m, c, c') && NodeCount(c') <= NodeCount(c)
  }

  ghost predicate Good(st: Setting, o: Optimizer) {
    forall c {:trigger Improves(st, c, o(c))} :: WellSized(st.g, c) ==> Improves(st, c, o(c))
  }

  // ----- the passes are good -----

  lemma {:induction false} UnannotOk(st: Setting, c: Circuit)
    requires WellSized(st.g, c)
    ensures Improves(st, c, Unannot(c)) && !Unannot(c).CAnnot?
    decreases c
  {
    if c.CAnnot? {
      UnannotOk(st, c.c);
    }
  }

  lemma {:induction false} AsConstOk(st: Setting, c: Circuit)
    requires WellSized(st.g, c)
    ensures AsConst(c).Some? ==> Interp(st.r, st.sigma, st.m, c) == AsConst(c).value && Width(st.g, c) == |AsConst(c).value|
  {
    UnannotOk(st, c);
  }

  lemma {:induction false} SameUnannotOk(st: Setting, c1: Circuit, c2: Circuit)
    requires st.Valid() && WellSized(st.g, c1) && WellSized(st.g, c2) && Width(st.g, c1) == Width(st.g, c2)
    ensures SameUnannot(st.eq, c1, c2) ==> Interp(st.r, st.sigma, st.m, c1) == Interp(st.r, st.sigma, st.m, c2)
  {
    UnannotOk(st, c1);
    UnannotOk(st, c2);
  }

  lemma {:induction false} OptIdenticalOk(st: Setting, c: Circuit)
    requires st.Valid() && WellSized(st.g, c)
    ensures Improves(st, c, OptIdentical(st.eq, c))
  {
    match c
    case CMux(_, c1, c2) => SameUnannotOk(st, c1, c2);
    case CBinop(And(_), c1, c2) => SameUnannotOk(st, c1, c2); InterpWidth(st.g, st.r, st.sigma, st.m, c1);
    case CBinop(Or(_), c1, c2) => SameUnannotOk(st, c1, c2); InterpWidth(st.g, st.r, st.sigma, st.m, c1);
    case _ =>
  }

  lemma {:induction false} OptMuxelimRedundantLOk(st: Setting, c: Circuit)
    requires st.Valid() && WellSized(st.g, c)
    ensures Improves(st, c, OptMuxelimRedundantL(st.eq, c))
  {
    if c.CMux? {
      UnannotOk(st, c.c1);
      var c1 := Unannot(c.c1);
      if c1.CMux? {
        SameUnannotOk(st, c.select, c1.select);
      }
    }
  }

  lemma {:induction false} OptMuxelimRedundantROk(st: Setting, c: Circuit)
    requires st.Valid() && WellSized(st.g, c)
    ensures Improves(st, c, OptMuxelimRedundantR(st.eq, c))
  {
    if c.CMux? {
      UnannotOk(st, c.c2);
      var c2 := Unannot(c.c2);
      if c2.CMux? {
        SameUnannotOk(st, c.select, c2.select);
      }
    }
  }

  lemma {:induction false} BitGates(st: Setting, k: Circuit, k': Circuit)
    requires st.Valid() && Sized(st.g, 1, k) && Sized(st.g, 1, k')
    ensures Sized(st.g, 1, MkNot(k)) && Sized(st.g, 1, MkAnd(k, k')) && Sized(st.g, 1, MkOr(k, k'))
    ensures |Interp(st.r, st.sigma, st.m, k)| == 1
    ensures NodeCount(MkNot(k)) == 1 + NodeCount(k)
    ensures NodeCount(MkAnd(k, k')) == NodeCount(MkOr(k, k')) == 1 + NodeCount(k) + NodeCount(k')
    ensures Interp(st.r, st.sigma, st.m, MkNot(k)) == [!Single(Interp(st.r, st.sigma, st.m, k))]
    ensures Interp(st.r, st.sigma, st.m, MkAnd(k, k')) ==
            [Single(Interp(st.r, st.sigma, st.m, k)) && Single(Interp(st.r, st.sigma, st.m, k'))]
    ensures Interp(st.r, st.sigma, st.m, MkOr(k, k')) ==
            [Single(Interp(st.r, st.sigma, st.m, k)) || Single(Interp(st.r, st.sigma, st.m, k'))]
  {
    InterpWidth(st.g, st.r, st.sigma, st.m, k);
    InterpWidth(st.g, st.r, st.sigma, st.m, k');
  }

  lemma {:induction false} OptMuxelimNestedLOk(st: Setting, c: Circuit)
    requires st.Valid() && WellSized(st.g, c)
    ensures Improves(st, c, OptMuxelimNestedL(st.eq, c))
  {
    if c.CMux? {
      UnannotOk(st, c.c1);
      var c1 := Unannot(c.c1);
      if c1.CMux? {
        SameUnannotOk(st, c1.c1, c.c2);
        SameUnannotOk(st, c1.c2, c.c2);
        BitGates(st, c1.select, c1.select);
        BitGates(st, c.select, MkNot(c1.select));
        BitGates(st, c.select, c1.select);
      }
    }
  }

  lemma {:induction false} OptMuxelimNestedROk(st: Setting, c: Circuit)
    requires st.Valid() && WellSized(st.g, c)
    ensures Improves(st, c, OptMuxelimNestedR(st.eq, c))
  {
    if c.CMux? {
      UnannotOk(st, c.c2);
      var c2 := Unannot(c.c2);
      if c2.CMux? {
        SameUnannotOk(st, c.c1, c2.c1);
        SameUnannotOk(st, c.c1, c2.c2);
        BitGates(st, c2.select, c2.select);
        BitGates(st, c.select, MkNot(c2.select));
        BitGates(st, c.select, c2.select);
      }
    }
  }

  lemma {:induction false} OptMuxelimOk(st: Setting, c: Circuit)
    requires st.Valid() && WellSized(st.g, c)
    ensures Improves(st, c, OptMuxelim(st.eq, c))
  {
    hide Interp, WellSized, Width, NodeCount, Setting.Valid;
    hide OptMuxelimRedundantL, OptMuxelimRedundantR, OptMuxelimNestedL, OptMuxelimNestedR;
    var a := OptMuxelimRedundantL(st.eq, c);
    var b := OptMuxelimRedundantR(st.eq, a);
    var d := OptMuxelimNestedL(st.eq, b);
    OptMuxelimRedundantLOk(st, c);
    OptMuxelimRedundantROk(st, a);
    OptMuxelimNestedLOk(st, b);
    OptMuxelimNestedROk(st, d);
  }

  lemma AndOrConstants(x: Bits)
    ensures BitAnd(x, Zeroes(|x|)) == BitAnd(Zeroes(|x|), x) == Zeroes(|x|)
    ensures BitAnd(x, Ones(|x|)) == BitAnd(Ones(|x|), x) == x
    ensures BitOr(x, Ones(|x|)) == BitOr(Ones(|x|), x) == Ones(|x|)
    ensures BitOr(x, Zeroes(|x|)) == BitOr(Zeroes(|x|), x) == x
  {
  }

  lemma {:induction false} ConstpropAndOr(st: Setting, c: Circuit)
    requires st.Valid() && WellSized(st.g, c) && c.CBinop? && (c.fn2.And? || c.fn2.Or?)
    ensures Improves(st, c, OptConstpropGates(c))
  {
    var x, y := Interp(st.r, st.sigma, st.m, c.a1), Interp(st.r, st.sigma, st.m, c.a2);
    AsConstOk(st, c.a1);
    AsConstOk(st, c.a2);
    InterpWidth(st.g, st.r, st.sigma, st.m, c.a1);
    InterpWidth(st.g, st.r, st.sigma, st.m, c.a2);
    AndOrConstants(x);
    AndOrConstants(y);
    ConstOk(st, c, Zeroes(c.fn2.sz));
    ConstOk(st, c, Ones(c.fn2.sz));
    BinopMeaning(st, c);
    hide Interp, Zeroes, Ones, BitAnd, BitOr, AsConst;
  }

  lemma {:induction false} BinopMeaning(st: Setting, c: Circuit)
    requires WellSized(st.g, c) && c.CBinop?
    ensures Interp(st.r, st.sigma, st.m, c) == Sigma2(c.fn2, Interp(st.r, st.sigma, st.m, c.a1), Interp(st.r, st.sigma, st.m, c.a2))
  {
  }

  lemma {:induction false} ConstOk(st: Setting, c: Circuit, b: Bits)
    ensures Interp(st.r, st.sigma, st.m, CConst(b)) == b && Width(st.g, CConst(b)) == |b|
    ensures WellSized(st.g, CConst(b)) && NodeCount(CConst(b)) <= NodeCount(c)
  {
  }

  lemma {:induction false} ConstpropRoot(st: Setting, c: Circuit)
    requires st.Valid() && WellSized(st.g, c) && !c.CAnnot?
    ensures Improves(st, c, OptConstpropGates(c))
  {
    match c
    case CUnop(Not(_), a) => AsConstOk(st, a);
    case CBinop(And(_), _, _) => ConstpropAndOr(st, c);
    case CBinop(Or(_), _, _) => ConstpropAndOr(st, c);
    case CMux(select, _, _) => AsConstOk(st, select);
    case _ =>
  }

  lemma {:induction false} OptConstpropGatesOk(st: Setting, c: Circuit)
    requires st.Valid() && WellSized(st.g, c)
    ensures Improves(st, c, OptConstpropGates(c))
  {
    UnannotOk(st, c);
    ConstpropRoot(st, Unannot(c));
    assert Unannot(Unannot(c)) == Unannot(c);
    assert OptConstpropGates(c) == c || OptConstpropGates(c) == OptConstpropGates(Unannot(c));
  }

  /** A one-bit multiplexer, from its parts. */
  lemma {:induction false} MuxParts(st: Setting, c: Circuit)
    requires st.Valid() && WellSized(st.g, c) && c.CMux? && Width(st.g, c) == 1
    ensures Sized(st.g, 1, c.select) && Sized(st.g, 1, c.c1) && Sized(st.g, 1, c.c2)
    ensures NodeCount(c) > NodeCount(c.select) + NodeCount(c.c1) + NodeCount(c.c2)
    ensures forall x | x == c.select || x == c.c1 || x == c.c2 ::
              Interp(st.r, st.sigma, st.m, x) == [Single(Interp(st.r, st.sigma, st.m, x))]
    ensures Interp(st.r, st.sigma, st.m, c) ==
            if Single(Interp(st.r, st.sigma, st.m, c.select)) then Interp(st.r, st.sigma, st.m, c.c1) else Interp(st.r, st.sigma, st.m, c.c2)
  {
    forall x | x == c.select || x == c.c1 || x == c.c2
      ensures Interp(st.r, st.sigma, st.m, x) == [Single(Interp(st.r, st.sigma, st.m, x))]
    {
      InterpWidth(st.g, st.r, st.sigma, st.m, x);
      OneBit(Interp(st.r, st.sigma, st.m, x));
    }
  }

  /** The first branch is 1. */
  lemma {:induction false} MuxFirstOne(st: Setting, c: Circuit)
    requires st.Valid() && WellSized(st.g, c) && c.CMux? && Width(st.g, c) == 1 && IsConst(c.c1, [true])
    ensures IsConst(c.c2, [false]) ==> Improves(st, c, c.select)
    ensures Improves(st, c, MkOr(c.select, c.c2))
  {
    hide Interp, WellSized, Width, NodeCount, MkOr, AsConst;
    MuxParts(st, c);
    AsConstOk(st, c.c1);
    AsConstOk(st, c.c2);
    BitGates(st, c.select, c.c2);
  }

  /** The first branch is 0 and the second 1. */
  lemma {:induction false} MuxNegated(st: Setting, c: Circuit)
    requires st.Valid() && WellSized(st.g, c) && c.CMux? && Width(st.g, c) == 1
    requires IsConst(c.c1, [false]) && IsConst(c.c2, [true])
    ensures Improves(st, c, MkNot(c.select))
  {
    hide Interp, WellSized, Width, NodeCount, MkNot, AsConst;
    MuxParts(st, c);
    AsConstOk(st, c.c1);
    AsConstOk(st, c.c2);
    BitGates(st, c.select, c.c1);
  }

  /** The second branch is 0. */
  lemma {:induction false} MuxSecondZero(st: Setting, c: Circuit)
    requires st.Valid() && WellSized(st.g, c) && c.CMux? && Width(st.g, c) == 1 && IsConst(c.c2, [false])
    ensures Improves(st, c, MkAnd(c.select, c.c1))
  {
    hide Interp, WellSized, Width, NodeCount, MkAnd, AsConst;
    MuxParts(st, c);
    AsConstOk(st, c.c2);
    BitGates(st, c.select, c.c1);
  }

  lemma {:induction false} OptMuxBit1Ok(st: Setting, c: Circuit)
    requires st.Valid() && WellSized(st.g, c)
    ensures Improves(st, c, OptMuxBit1(st.g, c))
  {
    hide Interp, WellSized, Width, NodeCount, AsConst;
    UnannotOk(st, c);
    var c' := Unannot(c);
    if c'.CMux? && Width(st.g, c) == 1 {
      if IsConst(c'.c1, [true]) { MuxFirstOne(st, c'); }
      if IsConst(c'.c1, [false]) && IsConst(c'.c2, [true]) { MuxNegated(st, c'); }
      if IsConst(c'.c2, [false]) { MuxSecondZero(st, c'); }
    }
  }

  lemma OneBit(b: Bits)
    requires |b| == 1
    ensures b == [Single(b)]
  {
  }

  lemma {:induction false} OptConstpropOk(st: Setting, c: Circuit)
    requires st.Valid() && WellSized(st.g, c)
    ensures Improves(st, c, OptConstprop(st.g, c))
  {
    if Width(st.g, c) == 0 {
      InterpWidth(st.g, st.r, st.sigma, st.m, c);
    } else {
      OptConstpropGatesOk(st, c);
      OptMuxBit1Ok(st, OptConstpropGates(c));
    }
  }

  lemma SliceFull(b: Bits)
    ensures Slice(0, |b|, b) == b
  {
  }

  lemma {:induction false} SimplifySliceOk(st: Setting, c: Circuit)
    requires st.Valid() && WellSized(st.g, c) && c.CUnop? && c.fn1.Slc?
    ensures Improves(st, c, SimplifySlice(c.fn1.sz, c.fn1.offset, c.fn1.width, c.a, c))
  {
    InterpWidth(st.g, st.r, st.sigma, st.m, c.a);
    SliceFull(Interp(st.r, st.sigma, st.m, c.a));
    UnannotOk(st, c.a);
    match Unannot(c.a)
    case CBinop(Cat(sz1, sz2), c1, c2) =>
      InterpWidth(st.g, st.r, st.sigma, st.m, c1);
      InterpWidth(st.g, st.r, st.sigma, st.m, c2);
      SliceConcat(Interp(st.r, st.sigma, st.m, c1), Interp(st.r, st.sigma, st.m, c2));
    case _ =>
  }

  lemma {:induction false} SimplifyEqOk(st: Setting, c: Circuit)
    requires st.Valid() && WellSized(st.g, c) && c.CBinop? && c.fn2.EqBits? && c.fn2.sz == 1
    ensures Improves(st, c, SimplifyEq(!c.fn2.negate, c.a1, c.a2, c))
  {
    AsConstOk(st, c.a1);
    AsConstOk(st, c.a2);
    BitGates(st, c.a1, c.a2);
    BitGates(st, c.a2, c.a1);
    OneBit(Interp(st.r, st.sigma, st.m, c.a1));
    OneBit(Interp(st.r, st.sigma, st.m, c.a2));
  }

  lemma BitNotTwice(b: Bits)
    ensures BitNot(BitNot(b)) == b
  {
  }

  lemma {:induction false} SimplifyNotOk(st: Setting, c: Circuit)
    requires st.Valid() && WellSized(st.g, c) && c.CUnop? && c.fn1.Not?
    ensures Improves(st, c, OptSimplify(c))
  {
    UnannotOk(st, c.a);
    if Unannot(c.a).CUnop? && Unannot(c.a).fn1.Not? {
      BitNotTwice(Interp(st.r, st.sigma, st.m, Unannot(c.a).a));
    }
  }

  /** Selecting from one bit, and concatenating with nothing. */
  lemma {:induction false} SimplifyTrivialOk(st: Setting, c: Circuit)
    requires st.Valid() && WellSized(st.g, c) && c.CBinop? && (c.fn2.Select? || c.fn2.Cat?)
    ensures Improves(st, c, OptSimplify(c))
  {
    InterpWidth(st.g, st.r, st.sigma, st.m, c.a1);
    InterpWidth(st.g, st.r, st.sigma, st.m, c.a2);
    if c.fn2.Select? && c.fn2.sz == 1 { OneBit(Interp(st.r, st.sigma, st.m, c.a1)); }
  }

  lemma {:induction false} OptSimplifyRoot(st: Setting, c: Circuit)
    requires st.Valid() && WellSized(st.g, c) && !c.CAnnot?
    ensures Improves(st, c, OptSimplify(c))
  {
    match c
    case CUnop(Slc(_, _, _), _) => SimplifySliceOk(st, c);
    case CUnop(Not(_), _) => SimplifyNotOk(st, c);
    case CBinop(Select(_), _, _) => SimplifyTrivialOk(st, c);
    case CBinop(Cat(_, _), _, _) => SimplifyTrivialOk(st, c);
    case CBinop(EqBits(sz, _), _, _) => if sz == 1 { SimplifyEqOk(st, c); }
    case _ =>
  }

  lemma {:induction false} OptSimplifyOk(st: Setting, c: Circuit)
    requires st.Valid() && WellSized(st.g, c)
    ensures Improves(st, c, OptSimplify(c))
  {
    UnannotOk(st, c);
    OptSimplifyRoot(st, Unannot(c));
    assert Unannot(Unannot(c)) == Unannot(c);
    assert OptSimplify(c) == c || OptSimplify(c) == OptSimplify(Unannot(c));
  }

  lemma {:induction false} OptPartialEvalOk(st: Setting, c: Circuit)
    requires st.Valid() && WellSized(st.g, c)
    ensures Improves(st, c, OptPartialEval(c))
  {
    UnannotOk(st, c);
    match Unannot(c)
    case CUnop(fn, a) =>
      AsConstOk(st, a);
      if AsConst(a).Some? { Sigma1Width(fn, AsConst(a).value); }
    case CBinop(fn, a1, a2) =>
      AsConstOk(st, a1);
      AsConstOk(st, a2);
      if AsConst(a1).Some? && AsConst(a2).Some? { Sigma2Width(fn, AsConst(a1).value, AsConst(a2).value); }
    case _ =>
  }

  // ----- composition and iteration -----

  lemma ComposeGood(st: Setting, o1: Optimizer, o2: Optimizer)
    requires Good(st, o1) && Good(st, o2)
    ensures Good(st, Compose(o1, o2))
  {
    hide Interp, WellSized, Width, NodeCount;
    forall c | WellSized(st.g, c) ensures Improves(st, c, Compose(o1, o2)(c)) {
      assert Improves(st, c, o1(c));
      assert Improves(st, o1(c), o2(o1(c)));
    }
  }

  lemma {:induction false} OptIterGood(st: Setting, o: Optimizer, fuel: nat, c: Circuit)
    requires Good(st, o) && WellSized(st.g, c)
    ensures Improves(st, c, OptIter(st.eq, o, fuel, c))
    decreases fuel
  {
    hide Interp, WellSized, Width, NodeCount;
    if fuel > 0 {
      assert Improves(st, c, o(c));
      OptIterGood(st, o, fuel - 1, o(c));
    }
  }

  lemma OptAllGood(st: Setting)
    requires st.Valid()
    ensures Good(st, OptAll(st.g, st.eq))
  {
    hide Interp, WellSized, Width, NodeCount, Improves, Setting.Valid;
    hide OptConstprop, OptIdentical, OptMuxelim, OptSimplify, OptPartialEval;
    var o1: Optimizer := c => OptConstprop(st.g, c);
    var o2: Optimizer := c => OptIdentical(st.eq, c);
    var o3: Optimizer := c => OptMuxelim(st.eq, c);
    forall c | WellSized(st.g, c) ensures Improves(st, c, o1(c)) { OptConstpropOk(st, c); }
    forall c | WellSized(st.g, c) ensures Improves(st, c, o2(c)) { OptIdenticalOk(st, c); }
    forall c | WellSized(st.g, c) ensures Improves(st, c, o3(c)) { OptMuxelimOk(st, c); }
    forall c | WellSized(st.g, c) ensures Improves(st, c, OptSimplify(c)) { OptSimplifyOk(st, c); }
    forall c | WellSized(st.g, c) ensures Improves(st, c, OptPartialEval(c)) { OptPartialEvalOk(st, c); }
    ComposeGood(st, OptSimplify, OptPartialEval);
    ComposeGood(st, o3, Compose(OptSimplify, OptPartialEval));
    ComposeGood(st, o2, Compose(o3, Compose(OptSimplify, OptPartialEval)));
    ComposeGood(st, o1, Compose(o2, Compose(o3, Compose(OptSimplify, OptPartialEval))));
    assert OptAll(st.g, st.eq) == Compose(o1, Compose(o2, Compose(o3, Compose(OptSimplify, OptPartialEval))));
  }

  /** All passes together, iterated any number of times, keep the meaning and the
      width of every circuit and never make it larger. */
  lemma {:induction false} OptAllIteratedCorrect(g: Sigs, sigma: ExtFun, m: Meaning, eq: Equivalence, fuel: nat)
    requires TypedExts(g, sigma) && Sound(g, sigma, m, eq)
    ensures Preserves(g, sigma, m, OptAllIterated(g, eq, fuel))
    ensures forall r, c :: TypedRegs(g, r) && WellSized(g, c) ==>
              NodeCount(OptAllIterated(g, eq, fuel)(c)) <= NodeCount(c)
  {
    hide Interp, WellSized, Width, NodeCount, OptAll;
    var o := OptAllIterated(g, eq, fuel);
    forall r, c | TypedRegs(g, r) && WellSized(g, c)
      ensures SameMeaning(g, r, sigma, m, c, o(c)) && NodeCount(o(c)) <= NodeCount(c)
    {
      var st := Setting(g, r, sigma, m, eq);
      OptAllGood(st);
      OptIterGood(st, OptAll(g, eq), fuel, c);
    }
  }

  // ----- constants are folded -----

  predicate Constant(c: Circuit) { AsConst(c).Some? }

  /** An operator or multiplexer all of whose operands are constants. */
  predicate OverConstants(c: Circuit) {
    match Unannot(c)
    case CMux(s, c1, c2) => Constant(s) && Constant(c1) && Constant(c2)
    case CUnop(_, a) => Constant(a)
    case CBinop(_, a1, a2) => Constant(a1) && Constant(a2)
    case CConst(_) => true
    case _ => false
  }

  /** The same, once multiplexers are gone. */
  predicate Foldable(c: Circuit) { OverConstants(c) && !Unannot(c).CMux? }

  lemma {:induction false} UnannotStops(c: Circuit)
    ensures !Unannot(c).CAnnot? && Unannot(Unannot(c)) == Unannot(c)
    decreases c
  {
    if c.CAnnot? { UnannotStops(c.c); }
  }

  lemma {:induction false} ConstpropRemovesMux(st: Setting, c: Circuit)
    requires st.Valid() && WellSized(st.g, c) && OverConstants(c)
    ensures Foldable(OptConstprop(st.g, c))
  {
    UnannotOk(st, c);
    UnannotStops(c);
    var c' := Unannot(c);
    if c'.CMux? && Width(st.g, c) != 0 {
      AsConstOk(st, c'.select);
      OneBit(AsConst(c'.select).value);
      UnannotStops(c'.c1);
      UnannotStops(c'.c2);
    }
    if c'.CBinop? {
      UnannotStops(c'.a1);
      UnannotStops(c'.a2);
    }
  }

  lemma {:induction false} IdenticalKeepsFoldable(eq: Equivalence, c: Circuit)
    requires Foldable(c)
    ensures Foldable(OptIdentical(eq, c))
  {
    UnannotStops(c);
    if c.CBinop? { UnannotStops(c.a1); }
  }

  lemma {:induction false} MuxelimKeepsFoldable(eq: Equivalence, c: Circuit)
    requires Foldable(c)
    ensures OptMuxelim(eq, c) == c
  {
    UnannotStops(c);
  }

  lemma {:induction false} SimplifyKeepsFoldable(c: Circuit)
    requires Foldable(c)
    ensures Foldable(OptSimplify(c))
  {
    UnannotStops(c);
    var c' := Unannot(c);
    if c'.CUnop? { UnannotStops(c'.a); }
    if c'.CBinop? {
      UnannotStops(c'.a1);
      UnannotStops(c'.a2);
      assert Foldable(MkNot(c'.a1)) && Foldable(MkNot(c'.a2)) && Foldable(c'.a1) && Foldable(c'.a2);
    }
  }

  /** Where all operands are constants, the passes together leave a constant, and it
      is the circuit's value. */
  lemma {:induction false} OptAllFolds(st: Setting, c: Circuit)
    requires st.Valid() && WellSized(st.g, c) && OverConstants(c)
    ensures AsConst(OptAll(st.g, st.eq)(c)) == Some(Interp(st.r, st.sigma, st.m, c))
  {
    hide Interp, WellSized, Width, Setting.Valid;
    hide OptConstprop, OptIdentical, OptMuxelim, OptSimplify;
    var c1 := OptConstprop(st.g, c);
    var c2 := OptIdentical(st.eq, c1);
    var c3 := OptMuxelim(st.eq, c2);
    var c4 := OptSimplify(c3);
    ConstpropRemovesMux(st, c);
    IdenticalKeepsFoldable(st.eq, c1);
    MuxelimKeepsFoldable(st.eq, c2);
    SimplifyKeepsFoldable(c3);
    assert OptAll(st.g, st.eq)(c) == OptPartialEval(c4);
    assert Constant(OptPartialEval(c4));
    OptAllGood(st);
    assert Improves(st, c, OptAll(st.g, st.eq)(c));
    AsConstOk(st, OptAll(st.g, st.eq)(c));
  }

  // ----- how often the passes run -----

  function Iterate(o: Optimizer, k: nat, c: Circuit): Circuit { if k == 0 then c else Iterate(o, k - 1, o(c)) }

  /** After `k` steps, all of which changed something, the fuel is used up or the next
      step would change nothing. */
  ghost predicate StopsAt(eq: Equivalence, o: Optimizer, fuel: nat, c: Circuit, k: nat) {
    && k <= fuel
    && (forall j: nat :: j < k ==> !eq(Iterate(o, j, c), Iterate(o, j + 1, c)))
    && (k == fuel || eq(Iterate(o, k, c), Iterate(o, k + 1, c)))
  }

  lemma {:induction false} StopsSomewhere(eq: Equivalence, o: Optimizer, fuel: nat, c: Circuit) returns (k: nat)
    ensures StopsAt(eq, o, fuel, c, k)
    decreases fuel
  {
    assert Iterate(o, 0, c) == c && Iterate(o, 1, c) == o(c);
    if fuel == 0 || eq(c, o(c)) {
      k := 0;
    } else {
      k := StopsSomewhere(eq, o, fuel - 1, o(c));
      k := k + 1;
      StopsLater(eq, o, fuel, c, k);
    }
  }

  lemma {:induction false} StopsThere(eq: Equivalence, o: Optimizer, fuel: nat, c: Circuit, k: nat)
    requires StopsAt(eq, o, fuel, c, k)
    ensures OptIter(eq, o, fuel, c) == Iterate(o, k, c)
    decreases fuel
  {
    assert Iterate(o, 0, c) == c && Iterate(o, 1, c) == o(c);
    if fuel > 0 && !eq(c, o(c)) {
      StopsLater(eq, o, fuel, c, k);
      StopsThere(eq, o, fuel - 1, o(c), k - 1);
    }
  }

  /** Iteration applies the passes until nothing changes or the fuel is used up. */
  lemma {:induction false} OptIterSteps(eq: Equivalence, o: Optimizer, fuel: nat, c: Circuit)
    ensures exists k :: StopsAt(eq, o, fuel, c, k)
    ensures forall k :: StopsAt(eq, o, fuel, c, k) ==> OptIter(eq, o, fuel, c) == Iterate(o, k, c)
  {
    hide StopsAt, OptIter, Iterate;
    var k0 := StopsSomewhere(eq, o, fuel, c);
    forall k | StopsAt(eq, o, fuel, c, k) ensures OptIter(eq, o, fuel, c) == Iterate(o, k, c) {
      StopsThere(eq, o, fuel, c, k);
    }
  }

  lemma {:induction false} StopsLater(eq: Equivalence, o: Optimizer, fuel: nat, c: Circuit, k: nat)
    requires fuel > 0 && k > 0 && !eq(c, o(c))
    ensures StopsAt(eq, o, fuel, c, k) <==> StopsAt(eq, o, fuel - 1, o(c), k - 1)
  {
    assert forall j: nat :: Iterate(o, j + 1, c) == Iterate(o, j, o(c));
    if StopsAt(eq, o, fuel - 1, o(c), k - 1) {
      forall j: nat | j < k ensures !eq(Iterate(o, j, c), Iterate(o, j + 1, c)) {
        if j > 0 { assert !eq(Iterate(o, j - 1, o(c)), Iterate(o, j, o(c))); }
      }
    }
    if StopsAt(eq, o, fuel, c, k) {
      forall j: nat | j < k - 1 ensures !eq(Iterate(o, j, o(c)), Iterate(o, j + 1, o(c))) {
        assert !eq(Iterate(o, j + 1, c), Iterate(o, j + 2, c));
      }
    }
  }

  lemma {:induction false} FoldedStaysFolded(st: Setting, fuel: nat, c: Circuit)
    requires st.Valid() && WellSized(st.g, c) && Constant(c)
    ensures Constant(OptIter(st.eq, OptAll(st.g, st.eq), fuel, c))
    decreases fuel
  {
    hide Setting.Valid, OptAll, WellSized, Interp;
    UnannotStops(c);
    if fuel > 0 {
      OptAllFolds(st, c);
      OptAllGood(st);
      var c' := OptAll(st.g, st.eq)(c);
      assert Improves(st, c, c');
      FoldedStaysFolded(st, fuel - 1, c');
    }
  }

  /** Iterated, the passes turn a circuit over constants into its value exactly when it
      is a constant already, or there is fuel and the first round is not reported to
      change nothing. */
  lemma {:induction false} OptAllIteratedFolds(st: Setting, fuel: nat, c: Circuit)
    requires st.Valid() && WellSized(st.g, c) && OverConstants(c)
    ensures AsConst(OptAllIterated(st.g, st.eq, fuel)(c)) == Some(Interp(st.r, st.sigma, st.m, c)) <==>
            Constant(c) || (fuel > 0 && !st.eq(c, OptAll(st.g, st.eq)(c)))
  {
    hide Setting.Valid, OptAll, WellSized, Interp, OverConstants;
    var o := OptAll(st.g, st.eq);
    var res := OptIter(st.eq, o, fuel, c);
    OptAllGood(st);
    OptIterGood(st, o, fuel, c);
    AsConstOk(st, res);
    if Constant(c) {
      FoldedStaysFolded(st, fuel, c);
    } else if fuel > 0 && !st.eq(c, o(c)) {
      OptAllFolds(st, c);
      assert Improves(st, c, o(c));
      FoldedStaysFolded(st, fuel - 1, o(c));
    }
  }

  // ----- every rewrite fires where its pattern is found, and nowhere else -----

  /** Nodes, with multiplexers counted twice. */
  function Measure(c: Circuit): (n: nat)
    ensures n > 0
  {
    match c
    case CMux(select, c1, c2) => 2 + Measure(select) + Measure(c1) + Measure(c2)
    case CUnop(_, a) => 1 + Measure(a)
    case CBinop(_, a1, a2) => 1 + Measure(a1) + Measure(a2)
    case CExternal(_, arg) => 1 + Measure(arg)
    case CBundleRef(_, _, _, _, c) => 1 + Measure(c)
    case CAnnot(_, c) => 1 + Measure(c)
    case _ => 1
  }

  predicate IdenticalRedex(eq: Equivalence, c: Circuit) {
    || (c.CMux? && SameUnannot(eq, c.c1, c.c2))
    || (c.CBinop? && (c.fn2.And? || c.fn2.Or?) && SameUnannot(eq, c.a1, c.a2))
  }

  /** A multiplexer over one that has the same selector or shares a branch with it. */
  predicate MuxelimRedex(eq: Equivalence, c: Circuit) {
    c.CMux? &&
    var (x, y) := (Unannot(c.c1), Unannot(c.c2));
    || (x.CMux? && (SameUnannot(eq, c.select, x.select) || SameUnannot(eq, x.c1, c.c2) || SameUnannot(eq, x.c2, c.c2)))
    || (y.CMux? && (SameUnannot(eq, c.select, y.select) || SameUnannot(eq, c.c1, y.c1) || SameUnannot(eq, c.c1, y.c2)))
  }

  predicate AllSame(sz: nat, c: Circuit) { IsConst(c, Zeroes(sz)) || IsConst(c, Ones(sz)) }

  predicate GateRedex(c: Circuit) {
    match Unannot(c)
    case CUnop(Not(_), a) => Constant(a)
    case CBinop(And(sz), c1, c2) => AllSame(sz, c1) || AllSame(sz, c2)
    case CBinop(Or(sz), c1, c2) => AllSame(sz, c1) || AllSame(sz, c2)
    case CMux(select, _, _) => AllSame(1, select)
    case _ => false
  }

  predicate BitMuxRedex(g: Sigs, c: Circuit) {
    match Unannot(c)
    case CMux(_, c1, c2) =>
      Width(g, c) == 1 && (IsConst(c1, [true]) || (IsConst(c1, [false]) && IsConst(c2, [true])) || IsConst(c2, [false]))
    case _ => false
  }

  predicate SliceRedex(sz: nat, offset: nat, width: nat, a: Circuit) {
    || (offset == 0 && sz == width)
    || match Unannot(a)
       case CBinop(Cat(sz1, sz2), _, _) => (offset == 0 && sz2 == width) || (offset == sz2 && sz1 == width)
       case _ => false
  }

  predicate SimplifyRedex(c: Circuit) {
    match Unannot(c)
    case CUnop(Slc(sz, offset, width), a) => SliceRedex(sz, offset, width, a)
    case CUnop(Not(_), a) => Unannot(a).CUnop? && Unannot(a).fn1.Not?
    case CBinop(Select(sz), _, _) => sz == 1
    case CBinop(Cat(sz1, sz2), _, _) => sz1 == 0 || sz2 == 0
    case CBinop(EqBits(sz, _), c1, c2) => sz == 1 && (AllSame(1, c1) || AllSame(1, c2))
    case _ => false
  }

  predicate PartialEvalRedex(c: Circuit) {
    match Unannot(c)
    case CUnop(_, a) => Constant(a)
    case CBinop(_, a1, a2) => Constant(a1) && Constant(a2)
    case _ => false
  }

  /** The rewrite makes the circuit smaller if its pattern is there, and else leaves it. */
  predicate Fires(redex: bool, c: Circuit, c': Circuit) { if redex then Measure(c') < Measure(c) else c' == c }

  lemma {:induction false} UnannotSmaller(c: Circuit)
    ensures Measure(Unannot(c)) <= Measure(c) && !Unannot(c).CAnnot?
    decreases c
  {
    if c.CAnnot? { UnannotSmaller(c.c); }
  }

  lemma {:induction false} IdenticalFires(eq: Equivalence, c: Circuit)
    ensures Fires(IdenticalRedex(eq, c), c, OptIdentical(eq, c))
  {
  }

  lemma {:induction false} RedundantLFires(eq: Equivalence, c: Circuit)
    ensures Fires(c.CMux? && Unannot(c.c1).CMux? && SameUnannot(eq, c.select, Unannot(c.c1).select), c, OptMuxelimRedundantL(eq, c))
  {
    if c.CMux? { UnannotSmaller(c.c1); }
  }

  lemma {:induction false} RedundantRFires(eq: Equivalence, c: Circuit)
    ensures Fires(c.CMux? && Unannot(c.c2).CMux? && SameUnannot(eq, c.select, Unannot(c.c2).select), c, OptMuxelimRedundantR(eq, c))
  {
    if c.CMux? { UnannotSmaller(c.c2); }
  }

  lemma {:induction false} NestedLFires(eq: Equivalence, c: Circuit)
    ensures Fires(c.CMux? && Unannot(c.c1).CMux? && (SameUnannot(eq, Unannot(c.c1).c1, c.c2) || SameUnannot(eq, Unannot(c.c1).c2, c.c2)),
                  c, OptMuxelimNestedL(eq, c))
  {
    if c.CMux? {
      UnannotSmaller(c.c1);
      if Unannot(c.c1).CMux? { assert Measure(MkNot(Unannot(c.c1).select)) == 1 + Measure(Unannot(c.c1).select); }
    }
  }

  lemma {:induction false} NestedRFires(eq: Equivalence, c: Circuit)
    ensures Fires(c.CMux? && Unannot(c.c2).CMux? && (SameUnannot(eq, c.c1, Unannot(c.c2).c1) || SameUnannot(eq, c.c1, Unannot(c.c2).c2)),
                  c, OptMuxelimNestedR(eq, c))
  {
    if c.CMux? {
      UnannotSmaller(c.c2);
      if Unannot(c.c2).CMux? { assert Measure(MkNot(Unannot(c.c2).select)) == 1 + Measure(Unannot(c.c2).select); }
    }
  }

  lemma {:induction false} MuxelimFires(eq: Equivalence, c: Circuit)
    ensures Fires(MuxelimRedex(eq, c), c, OptMuxelim(eq, c))
  {
    hide OptMuxelimRedundantL, OptMuxelimRedundantR, OptMuxelimNestedL, OptMuxelimNestedR, SameUnannot, Measure;
    var c1 := OptMuxelimRedundantL(eq, c);
    var c2 := OptMuxelimRedundantR(eq, c1);
    var c3 := OptMuxelimNestedL(eq, c2);
    RedundantLFires(eq, c);
    RedundantRFires(eq, c1);
    NestedLFires(eq, c2);
    NestedRFires(eq, c3);
  }

  lemma {:induction false} GatesFire(c: Circuit)
    ensures Fires(GateRedex(c), c, OptConstpropGates(c))
  {
    hide Zeroes, Ones, IsConst;
    UnannotSmaller(c);
    assert forall b :: IsConst(c, b) ==> Constant(c) by { ConstIsConst(c); }
    OneBitConstants();
  }

  lemma OneBitConstants()
    ensures Zeroes(1) == [false] && Ones(1) == [true]
  {
  }

  lemma ConstIsConst(c: Circuit)
    ensures forall b :: IsConst(c, b) ==> Constant(c)
  {
  }

  lemma {:induction false} BitMuxFires(g: Sigs, c: Circuit)
    ensures Fires(BitMuxRedex(g, c), c, OptMuxBit1(g, c))
  {
    UnannotSmaller(c);
  }

  lemma {:induction false} ConstpropFires(g: Sigs, c: Circuit)
    requires Width(g, c) != 0
    ensures Fires(GateRedex(c) || BitMuxRedex(g, c), c, OptConstprop(g, c))
  {
    hide OptConstpropGates, OptMuxBit1, GateRedex, BitMuxRedex;
    GatesFire(c);
    BitMuxFires(g, OptConstpropGates(c));
  }

  lemma {:induction false} SimplifyFires(c: Circuit)
    ensures Fires(SimplifyRedex(c), c, OptSimplify(c))
  {
    OneBitConstants();
    UnannotSmaller(c);
    var c' := Unannot(c);
    if c'.CUnop? { UnannotSmaller(c'.a); }
  }

  lemma {:induction false} PartialEvalFires(c: Circuit)
    ensures Fires(PartialEvalRedex(c), c, OptPartialEval(c))
  {
    UnannotSmaller(c);
  }

  /** No rewrite applies to the circuit. */
  predicate Normal(g: Sigs, eq: Equivalence, c: Circuit) {
    if Width(g, c) == 0 then c == CConst([])
    else !GateRedex(c) && !BitMuxRedex(g, c) && !IdenticalRedex(eq, c) && !MuxelimRedex(eq, c) && !SimplifyRedex(c) && !PartialEvalRedex(c)
  }

  /** One round of all passes makes the circuit smaller unless no rewrite applies. */
  lemma {:induction false} RoundFires(g: Sigs, eq: Equivalence, c: Circuit)
    ensures Width(g, c) != 0 ==> Fires(!Normal(g, eq, c), c, OptAll(g, eq)(c))
    ensures Width(g, c) == 0 ==> OptAll(g, eq)(c) == CConst([])
    ensures OptAll(g, eq)(c) == OptPartialEval(OptSimplify(OptMuxelim(eq, OptIdentical(eq, OptConstprop(g, c)))))
  {
    hide OptConstprop, OptIdentical, OptMuxelim, OptSimplify, OptPartialEval, Measure;
    hide GateRedex, BitMuxRedex, IdenticalRedex, MuxelimRedex, SimplifyRedex, PartialEvalRedex;
    if Width(g, c) == 0 {
      EmptyIsNormal(g, eq, c);
    } else {
      var c1 := OptConstprop(g, c);
      var c2 := OptIdentical(eq, c1);
      var c3 := OptMuxelim(eq, c2);
      var c4 := OptSimplify(c3);
      ConstpropFires(g, c);
      IdenticalFires(eq, c1);
      MuxelimFires(eq, c2);
      SimplifyFires(c3);
      PartialEvalFires(c4);
      assert OptAll(g, eq)(c) == OptPartialEval(c4);
    }
  }

  lemma {:induction false} EmptyIsNormal(g: Sigs, eq: Equivalence, c: Circuit)
    requires Width(g, c) == 0
    ensures OptAll(g, eq)(c) == CConst([]) && Normal(g, eq, CConst([]))
  {
    assert OptAll(g, eq)(c) == OptPartialEval(OptSimplify(OptMuxelim(eq, OptIdentical(eq, OptConstprop(g, c)))));
  }

  /** With enough fuel, and a comparison that is equality, the iterated passes leave a
      circuit to which no rewrite applies. */
  lemma {:induction false} OptAllIteratedNormal(g: Sigs, eq: Equivalence, fuel: nat, c: Circuit)
    requires forall x, y :: eq(x, y) <==> x == y
    requires fuel >= Measure(c)
    ensures Normal(g, eq, OptAllIterated(g, eq, fuel)(c))
    decreases fuel
  {
    hide OptAll, Normal, Measure, Width;
    var o := OptAll(g, eq);
    var c' := o(c);
    RoundFires(g, eq, c);
    if Width(g, c) == 0 {
      EmptyIsNormal(g, eq, c);
      EmptyStays(g, eq, fuel - 1);
      EmptyStays(g, eq, fuel);
    } else if c' != c {
      OptAllIteratedNormal(g, eq, fuel - 1, c');
    }
  }

  lemma {:induction false} EmptyStays(g: Sigs, eq: Equivalence, fuel: nat)
    requires forall x, y :: eq(x, y) <==> x == y
    ensures OptIter(eq, OptAll(g, eq), fuel, CConst([])) == CConst([])
  {
    EmptyIsNormal(g, eq, CConst([]));
  }
}
