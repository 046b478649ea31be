/** The typed language: actions over values of any type, what it means for one to be
    well typed, and its bit-level form. */
module TypedSyntax {
  import opened BitVectors
  import opened Primitives
  import opened Types
  import Low = Syntax

  /** Unary primitives; GetPart is field access on structs and element access on arrays. */
  datatype Fn1 =
    | Display(tau: Type)
    | Pack(tau: Type)
    | Unpack(tau: Type)
    | Ignore(tau: Type)
    | Bits1(fn: Fbits1)
    | GetPart(tau: Type, i: nat)
  {
    predicate Valid() { GetPart? ==> tau.Parted() && i < tau.Count() }

    function Arg(): Type {
      match this
      case Unpack(tau) => BitsT(SizeOf(tau))
      case Bits1(fn) => BitsT(fn.Arg())
      case _ => tau
    }

    function Ret(): Type
      requires Valid()
    {
      match this
      case Pack(tau) => BitsT(SizeOf(tau))
      case Unpack(tau) => tau
      case Bits1(fn) => BitsT(fn.Ret())
      case GetPart(tau, i) => tau.Part(i)
      case _ => BitsT(0)
    }

    function Apply(v: Val): Val {
      match this
      case Pack(_) => BitsVal(BitsOf(v))
      case Unpack(tau) => if |BitsOf(v)| == SizeOf(tau) then OfBits(tau, BitsOf(v)) else BitsVal([])
      case Bits1(fn) => BitsVal(Sigma1(fn, BitsOf(v)))
      case GetPart(_, i) => if v.Parts? && i < |v.elems| then v.elems[i] else BitsVal([])
      case _ => BitsVal([])
    }
  }

  /** Binary primitives; SubstPart replaces a field or an element. */
  datatype Fn2 =
    | Eq(tau: Type, negate: bool)
    | Bits2(fn: Fbits2)
    | SubstPart(tau: Type, i: nat)
  {
    predicate Valid() { SubstPart? ==> tau.Parted() && i < tau.Count() }

    function Arg1(): Type { if Bits2? then BitsT(fn.Arg1()) else tau }

    function Arg2(): Type
      requires Valid()
    {
      match this
      case Eq(tau, _) => tau
      case Bits2(fn) => BitsT(fn.Arg2())
      case SubstPart(tau, i) => tau.Part(i)
    }

    function Ret(): Type {
      match this
      case Eq(_, _) => BitsT(1)
      case Bits2(fn) => BitsT(fn.Ret())
      case SubstPart(tau, _) => tau
    }

    function Apply(v: Val, w: Val): Val {
      match this
      case Eq(_, negate) => BitsVal([(v == w) != negate])
      case Bits2(fn) => BitsVal(Sigma2(fn, BitsOf(v), BitsOf(w)))
      case SubstPart(_, i) => if v.Parts? && i < |v.elems| then Parts(v.elems[i := w]) else v
    }
  }

  datatype Action =
    | Fail(tau: Type)
    | Var(name: string, m: nat)
    | Cst(cst: Val)
    | Assign(name: string, m: nat, ex: Action)
    | Seq(r1: Action, r2: Action)
    | Bind(name: string, tau: Type, ex: Action, body: Action)
    | If(cond: Action, tbranch: Action, fbranch: Action)
    | Read(port: Low.Port, idx: nat)
    | Write(port: Low.Port, idx: nat, value: Action)
    | Unop(fn1: Fn1, arg: Action)
    | Binop(fn2: Fn2, arg1: Action, arg2: Action)
    | ExternalCall(ext: nat, arg: Action)
    | InternalCall(fname: string, args: Args, body: Action)
    | APos(a: Action)

  datatype Args = NoArgs | MoreArgs(name: string, tau: Type, arg: Action, rest: Args)

  type Rules = Low.RuleName -> Action

  // ----- typing -----

  datatype ExtSig = ExtSig(arg: Type, ret: Type)

  datatype Sigs = Sigs(regs: seq<Type>, exts: seq<ExtSig>)

  predicate Typed(g: Sigs, sig: seq<Type>, tau: Type, a: Action)
    decreases a
  {
    match a
    case Fail(tau') => tau' == tau
    case Var(_, m) => m < |sig| && sig[m] == tau
    case Cst(cst) => HasType(cst, tau)
    case Assign(_, m, ex) => tau == BitsT(0) && m < |sig| && Typed(g, sig, sig[m], ex)
    case Seq(r1, r2) => Typed(g, sig, BitsT(0), r1) && Typed(g, sig, tau, r2)
    case Bind(_, tau', ex, body) => Typed(g, sig, tau', ex) && Typed(g, [tau'] + sig, tau, body)
    case If(cond, tbranch, fbranch) =>
      Typed(g, sig, BitsT(1), cond) && Typed(g, sig, tau, tbranch) && Typed(g, sig, tau, fbranch)
    case Read(_, idx) => idx < |g.regs| && tau == g.regs[idx]
    case Write(_, idx, value) => tau == BitsT(0) && idx < |g.regs| && Typed(g, sig, g.regs[idx], value)
    case Unop(fn, arg) => fn.Valid() && tau == fn.Ret() && Typed(g, sig, fn.Arg(), arg)
    case Binop(fn, arg1, arg2) =>
      fn.Valid() && tau == fn.Ret() && Typed(g, sig, fn.Arg1(), arg1) && Typed(g, sig, fn.Arg2(), arg2)
    case ExternalCall(ext, arg) =>
      ext < |g.exts| && tau == g.exts[ext].ret && Typed(g, sig, g.exts[ext].arg, arg)
    case InternalCall(_, args, body) => TypedArgs(g, sig, args) && Typed(g, ArgTypes(args), tau, body)
    case APos(a) => Typed(g, sig, tau, a)
  }

  predicate TypedArgs(g: Sigs, sig: seq<Type>, args: Args)
    decreases args
  {
    match args
    case NoArgs => true
    case MoreArgs(_, tau, arg, rest) => Typed(g, sig, tau, arg) && TypedArgs(g, sig, rest)
  }

  function ArgTypes(args: Args): seq<Type> {
    match args
    case NoArgs => []
    case MoreArgs(_, tau, _, rest) => [tau] + ArgTypes(rest)
  }

  ghost predicate TypedRules(g: Sigs, rules: Rules) { forall rl :: Typed(g, [], BitsT(0), rules(rl)) }

  // ----- the bit-level form -----

  /** Parts become slices, packing and unpacking disappear. */
  function EraseUnop(fn: Fn1, a: Low.Action): Low.Action {
    match fn
    case Display(tau) => Low.Unop(DisplayBits(SizeOf(tau)), a)
    case Pack(_) => a
    case Unpack(_) => a
    case Ignore(tau) => Low.Unop(IgnoreBits(SizeOf(tau)), a)
    case Bits1(fn) => Low.Unop(fn, a)
    case GetPart(tau, i) => if fn.Valid() then Low.Unop(Slc(SizeOf(tau), OffsetRight(tau, i), SizeOf(tau.Part(i))), a) else a
  }

  function EraseBinop(fn: Fn2): Fbits2 {
    match fn
    case Eq(tau, negate) => EqBits(SizeOf(tau), negate)
    case Bits2(fn) => fn
    case SubstPart(tau, i) => if fn.Valid() then Subst(SizeOf(tau), OffsetRight(tau, i), SizeOf(tau.Part(i)), tau.StructT?) else And(SizeOf(tau))
  }

  function Erase(a: Action): Low.Action
    decreases a
  {
    match a
    case Fail(tau) => Low.Fail(SizeOf(tau))
    case Var(k, m) => Low.Var(k, m)
    case Cst(cst) => Low.Cst(BitsOf(cst))
    case Assign(k, m, ex) => Low.Assign(k, m, Erase(ex))
    case Seq(r1, r2) => Low.Seq(Erase(r1), Erase(r2))
    case Bind(k, tau, ex, body) => Low.Bind(k, SizeOf(tau), Erase(ex), Erase(body))
    case If(cond, tbranch, fbranch) => Low.If(Erase(cond), Erase(tbranch), Erase(fbranch))
    case Read(p, idx) => Low.Read(p, idx)
    case Write(p, idx, value) => Low.Write(p, idx, Erase(value))
    case Unop(fn, arg) => EraseUnop(fn, Erase(arg))
    case Binop(fn, arg1, arg2) => Low.Binop(EraseBinop(fn), Erase(arg1), Erase(arg2))
    case ExternalCall(ext, arg) => Low.ExternalCall(ext, Erase(arg))
    case InternalCall(f, args, body) => Low.InternalCall(f, EraseArgs(args), Erase(body))
    case APos(a) => Low.APos(Erase(a))
  }

  function EraseArgs(args: Args): Low.Args
    decreases args
  {
    match args
    case NoArgs => Low.NoArgs
    case MoreArgs(k, tau, arg, rest) => Low.MoreArgs(k, SizeOf(tau), Erase(arg), EraseArgs(rest))
  }
}
