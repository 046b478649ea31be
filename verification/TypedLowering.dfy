/** Typed programs and their bit-level forms compute the same: every run over typed
    values, mapped to bits, is the run of the erased program. */
module TypedLowering {
  import opened BitVectors
  import opened Primitives
  import opened Types
  import opened TypedSyntax
  import opened TypedSemantics
  import Low = Syntax
  import LowLogs = Logs
  import LowSem = Semantics
  import Lowering

  // ----- values, contexts, logs and registers as bits -----

  function ToBits(vs: seq<Val>): (bs: seq<Bits>)
    ensures |bs| == |vs|
  {
    seq(|vs|, i requires 0 <= i < |vs| => BitsOf(vs[i]))
  }

  function EntryBits(e: Entry): LowLogs.Entry { if e.Rd? then LowLogs.Rd(e.port) else LowLogs.Wr(e.port, BitsOf(e.val)) }

  function EntriesBits(es: RLog): (bs: LowLogs.RLog)
    ensures |bs| == |es|
  {
    seq(|es|, k requires 0 <= k < |es| => EntryBits(es[k]))
  }

  function LogBits(l: Log): (bs: LowLogs.Log)
    ensures |bs| == |l|
  {
    seq(|l|, i requires 0 <= i < |l| => EntriesBits(l[i]))
  }

  function OutcomeBits(o: Outcome): LowSem.Outcome {
    if o.Ok? then LowSem.Ok(LogBits(o.log), BitsOf(o.val), ToBits(o.ctx)) else LowSem.Failed
  }

  /** External functions work on values; their bit-level form unpacks and packs. */
  function ExtBits(g: Sigs, sigma: ExtFun): LowSem.ExtFun {
    (ext: nat, b: Bits) => if ext < |g.exts| && |b| == SizeOf(g.exts[ext].arg) then BitsOf(sigma(ext, OfBits(g.exts[ext].arg, b))) else []
  }

  function Sizes(ts: seq<Type>): (ns: seq<nat>)
    ensures |ns| == |ts|
  {
    seq(|ts|, i requires 0 <= i < |ts| => SizeOf(ts[i]))
  }

  function SigsBits(g: Sigs): Low.Sigs {
    Low.Sigs(Sizes(g.regs), seq(|g.exts|, i requires 0 <= i < |g.exts| => Low.ExtSig(SizeOf(g.exts[i].arg), SizeOf(g.exts[i].ret))))
  }

  function RulesBits(rules: Rules): Low.Rules { rl => Erase(rules(rl)) }

  // ----- typed contexts, logs and registers -----

  predicate AllTyped(ts: seq<Type>, vs: seq<Val>) { |vs| == |ts| && forall i :: 0 <= i < |ts| ==> HasType(vs[i], ts[i]) }

  predicate EntriesTyped(t: Type, es: RLog) { forall k :: 0 <= k < |es| && es[k].Wr? ==> HasType(es[k].val, t) }

  predicate LogTyped(ts: seq<Type>, l: Log) { |l| == |ts| && forall i :: 0 <= i < |ts| ==> EntriesTyped(ts[i], l[i]) }

  ghost predicate ExtsTyped(g: Sigs, sigma: ExtFun) {
    forall ext: nat, v :: ext < |g.exts| && HasType(v, g.exts[ext].arg) ==> HasType(sigma(ext, v), g.exts[ext].ret)
  }

  // ----- logs -----

  lemma {:induction false} EntriesAsk(es: RLog)
    ensures forall p :: LowLogs.HasRead(EntriesBits(es), p) == HasRead(es, p)
    ensures forall p :: LowLogs.HasWrite(EntriesBits(es), p) == HasWrite(es, p)
  {
    var bs := EntriesBits(es);
    forall p
      ensures LowLogs.HasRead(bs, p) == HasRead(es, p)
      ensures LowLogs.HasWrite(bs, p) == HasWrite(es, p)
    {
      if HasRead(es, p) {
        var k :| 0 <= k < |es| && es[k] == Rd(p);
        assert bs[k] == LowLogs.Rd(p);
      }
      if LowLogs.HasRead(bs, p) {
        var k :| 0 <= k < |bs| && bs[k] == LowLogs.Rd(p);
        assert es[k] == Rd(p);
      }
      if HasWrite(es, p) {
        var k :| 0 <= k < |es| && es[k].Wr? && es[k].port == p;
        assert bs[k] == LowLogs.Wr(p, BitsOf(es[k].val)) && bs[k] in bs;
      }
      if LowLogs.HasWrite(bs, p) {
        var k :| 0 <= k < |bs| && bs[k].Wr? && bs[k].port == p;
        assert es[k].Wr? && es[k].port == p && es[k] in es;
      }
    }
  }

  lemma {:induction false} EntriesLatest(t: Type, es: RLog, p: Low.Port)
    requires EntriesTyped(t, es)
    ensures LatestBits(t, LatestAt(es, p), LowLogs.LatestAt(EntriesBits(es), p))
    ensures LatestBits(t, Latest(es), LowLogs.Latest(EntriesBits(es)))
    decreases |es|
  {
    if es != [] {
      assert EntriesBits(es)[1..] == EntriesBits(es[1..]);
      EntriesLatest(t, es[1..], p);
    }
  }

  predicate LatestBits(t: Type, v: Option<Val>, b: Low.Option<Bits>) {
    v.Some? == b.Some? && (v.Some? ==> b.value == BitsOf(v.value) && HasType(v.value, t))
  }

  lemma {:induction false} AppBits(l: Log, L: Log)
    requires |l| == |L|
    ensures LogBits(App(l, L)) == LowLogs.App(LogBits(l), LogBits(L))
    ensures forall i :: 0 <= i < |l| ==> EntriesBits(l[i] + L[i]) == EntriesBits(l[i]) + EntriesBits(L[i])
  {
    forall i | 0 <= i < |l| ensures EntriesBits(l[i] + L[i]) == EntriesBits(l[i]) + EntriesBits(L[i]) {}
  }

  lemma {:induction false} PushBits(ts: seq<Type>, l: Log, idx: nat, e: Entry)
    requires LogTyped(ts, l) && idx < |l| && (e.Wr? ==> HasType(e.val, ts[idx]))
    ensures LogTyped(ts, Push(l, idx, e)) && LogBits(Push(l, idx, e)) == LowLogs.Push(LogBits(l), idx, EntryBits(e))
  {
    assert EntriesBits([e] + l[idx]) == [EntryBits(e)] + EntriesBits(l[idx]);
  }

  lemma {:induction false} EmptyBits(ts: seq<Type>)
    ensures LogTyped(ts, Empty(|ts|)) && LogBits(Empty(|ts|)) == LowLogs.Empty(|ts|)
  {
  }

  lemma {:induction false} ChecksBits(L: Log, l: Log, p: Low.Port, idx: nat)
    requires |l| == |L| && idx < |L|
    ensures LowLogs.MayRead(LogBits(L), p, idx) == MayRead(L[idx], p)
    ensures LowLogs.MayWrite(LogBits(L), LogBits(l), p, idx) == MayWrite(l[idx] + L[idx], p)
  {
    EntriesAsk(L[idx]);
    EntriesAsk(l[idx] + L[idx]);
    AppBits(l, L);
  }

  lemma {:induction false} ReadBits(ts: seq<Type>, r: RegFile, L: Log, l: Log, p: Low.Port, idx: nat)
    requires AllTyped(ts, r) && LogTyped(ts, L) && LogTyped(ts, l) && idx < |ts|
    ensures HasType(ReadValue(r, L, l, p, idx), ts[idx])
    ensures LowSem.ReadValue(ToBits(r), LogBits(L), LogBits(l), p, idx) == BitsOf(ReadValue(r, L, l, p, idx))
  {
    AppBits(l, L);
    EntriesLatest(ts[idx], l[idx] + L[idx], Low.P0);
  }

  lemma {:induction false} CommitBits(ts: seq<Type>, r: RegFile, L: Log)
    requires AllTyped(ts, r) && LogTyped(ts, L)
    ensures AllTyped(ts, CommitUpdate(r, L))
    ensures LowLogs.CommitUpdate(ToBits(r), LogBits(L)) == ToBits(CommitUpdate(r, L))
  {
    forall i | 0 <= i < |ts|
      ensures HasType(CommitUpdate(r, L)[i], ts[i])
      ensures LowLogs.CommitUpdate(ToBits(r), LogBits(L))[i] == BitsOf(CommitUpdate(r, L)[i])
    {
      EntriesLatest(ts[i], L[i], Low.P0);
    }
  }

  // ----- primitives -----

  /** What the erased form of a unary primitive does to bits. */
  function UnopBits(fn: Fn1, b: Bits): Bits {
    match fn
    case Display(_) => []
    case Pack(_) => b
    case Unpack(_) => b
    case Ignore(_) => []
    case Bits1(fn) => Sigma1(fn, b)
    case GetPart(tau, i) => if fn.Valid() then Slice(OffsetRight(tau, i), SizeOf(tau.Part(i)), b) else b
  }

  /** Unary primitives on values are bit primitives on their bits. */
  lemma {:induction false} UnopCorrect(fn: Fn1, v: Val)
    requires fn.Valid() && HasType(v, fn.Arg())
    ensures HasType(fn.Apply(v), fn.Ret()) && BitsOf(fn.Apply(v)) == UnopBits(fn, BitsOf(v))
  {
    BitsWidth(v, fn.Arg());
    match fn
    case Unpack(tau) => BitsOfOf(tau, BitsOf(v));
    case Bits1(f) => Sigma1Width(f, BitsOf(v));
    case GetPart(tau, i) => PartSlice(v, tau, i);
    case _ =>
  }

  /** So are binary ones: equal values have equal bits, a replaced part is a replaced slice. */
  lemma {:induction false} BinopCorrect(fn: Fn2, v: Val, w: Val)
    requires fn.Valid() && HasType(v, fn.Arg1()) && HasType(w, fn.Arg2())
    ensures HasType(fn.Apply(v, w), fn.Ret()) && BitsOf(fn.Apply(v, w)) == Sigma2(EraseBinop(fn), BitsOf(v), BitsOf(w))
  {
    BitsWidth(v, fn.Arg1());
    BitsWidth(w, fn.Arg2());
    match fn
    case Eq(tau, _) => SameBits(v, w, tau);
    case Bits2(f) => Sigma2Width(f, BitsOf(v), BitsOf(w));
    case SubstPart(tau, i) => PartSubst(v, tau, i, w);
  }

  lemma {:induction false} UnopMeans(r: LowLogs.RegFile, sigma: LowSem.ExtFun, G: LowSem.Ctx, L: LowLogs.Log, l: LowLogs.Log,
                                     fn: Fbits1, a: Low.Action)
    requires Low.Scoped(a, |r|, |G|) && |L| == |l| == |r|
    ensures Low.Scoped(Low.Unop(fn, a), |r|, |G|)
    ensures LowSem.InterpAction(r, sigma, G, L, l, Low.Unop(fn, a)) ==
            match LowSem.InterpAction(r, sigma, G, L, l, a)
            case Failed => LowSem.Failed
            case Ok(l, b, G) => LowSem.Ok(l, Sigma1(fn, b), G)
  {
  }

  lemma {:induction false} EraseUnopMeans(r: LowLogs.RegFile, sigma: LowSem.ExtFun, G: LowSem.Ctx, L: LowLogs.Log, l: LowLogs.Log,
                                          fn: Fn1, a: Low.Action)
    requires fn.Valid() && Low.Scoped(a, |r|, |G|) && |L| == |l| == |r|
    ensures Low.Scoped(EraseUnop(fn, a), |r|, |G|)
    ensures LowSem.InterpAction(r, sigma, G, L, l, EraseUnop(fn, a)) ==
            match LowSem.InterpAction(r, sigma, G, L, l, a)
            case Failed => LowSem.Failed
            case Ok(l, b, G) => LowSem.Ok(l, UnopBits(fn, b), G)
  {
    hide LowSem.InterpAction, Low.Scoped, Slice;
    match fn
    case Display(tau) => UnopMeans(r, sigma, G, L, l, DisplayBits(SizeOf(tau)), a);
    case Ignore(tau) => UnopMeans(r, sigma, G, L, l, IgnoreBits(SizeOf(tau)), a);
    case Bits1(f) => UnopMeans(r, sigma, G, L, l, f, a);
    case GetPart(tau, i) => UnopMeans(r, sigma, G, L, l, Slc(SizeOf(tau), OffsetRight(tau, i), SizeOf(tau.Part(i))), a);
    case _ =>
  }

  // ----- actions -----

  /** Typed surroundings of a run. */
  datatype World = World(g: Sigs, r: RegFile, sigma: ExtFun, L: Log) {
    ghost predicate Valid() { AllTyped(g.regs, r) && LogTyped(g.regs, L) && ExtsTyped(g, sigma) }

    /** The bit-level run. */
    function Run(G: Ctx, l: Log, a: Action): LowSem.Outcome
      requires Scoped(a, |r|, |G|) && |L| == |l| == |r|
    {
      LowSem.InterpAction(ToBits(r), ExtBits(g, sigma), ToBits(G), LogBits(L), LogBits(l), Erase(a))
    }

    function RunArgs(G: Ctx, l: Log, args: Args): LowSem.ArgsOutcome
      requires ScopedArgs(args, |r|, |G|) && |L| == |l| == |r|
    {
      LowSem.InterpArgs(ToBits(r), ExtBits(g, sigma), ToBits(G), LogBits(L), LogBits(l), EraseArgs(args))
    }

    ghost predicate At(sig: seq<Type>, G: Ctx, l: Log) { AllTyped(sig, G) && LogTyped(g.regs, l) }

    /** The run over values. */
    function Sem(G: Ctx, l: Log, a: Action): Outcome
      requires Scoped(a, |r|, |G|) && |L| == |l| == |r|
    {
      InterpAction(r, sigma, G, L, l, a)
    }

    function SemArgs(G: Ctx, l: Log, args: Args): ArgsOutcome
      requires ScopedArgs(args, |r|, |G|) && |L| == |l| == |r|
    {
      InterpArgs(r, sigma, G, L, l, args)
    }

    ghost predicate OutcomeTyped(sig: seq<Type>, tau: Type, o: Outcome) {
      o.Ok? ==> HasType(o.val, tau) && At(sig, o.ctx, o.log)
    }

    /** Both runs go the same way, and typed values stay typed. */
    ghost predicate Agrees(sig: seq<Type>, tau: Type, G: Ctx, l: Log, a: Action)
      requires Scoped(a, |r|, |G|) && |L| == |l| == |r|
    {
      Run(G, l, a) == OutcomeBits(Sem(G, l, a)) && OutcomeTyped(sig, tau, Sem(G, l, a))
    }

    ghost predicate Ready(sig: seq<Type>, tau: Type, G: Ctx, l: Log, a: Action) {
      Valid() && At(sig, G, l) && Typed(g, sig, tau, a) && Scoped(a, |r|, |G|) && |L| == |l| == |r|
    }

    ghost predicate ArgsReady(sig: seq<Type>, G: Ctx, l: Log, args: Args) {
      Valid() && At(sig, G, l) && TypedArgs(g, sig, args) && ScopedArgs(args, |r|, |G|) && |L| == |l| == |r|
    }

    ghost predicate ArgsAgree(sig: seq<Type>, G: Ctx, l: Log, args: Args)
      requires ScopedArgs(args, |r|, |G|) && |L| == |l| == |r|
    {
      && RunArgs(G, l, args) == ArgsBits(SemArgs(G, l, args))
      && (SemArgs(G, l, args).ArgsOk? ==>
            AllTyped(ArgTypes(args), SemArgs(G, l, args).vals) && At(sig, SemArgs(G, l, args).ctx, SemArgs(G, l, args).log))
    }
  }

  function ArgsBits(o: ArgsOutcome): LowSem.ArgsOutcome {
    if o.ArgsOk? then LowSem.ArgsOk(LogBits(o.log), ToBits(o.vals), ToBits(o.ctx)) else LowSem.ArgsFailed
  }

  lemma ConsBits(v: Val, vs: seq<Val>)
    ensures ToBits([v] + vs) == [BitsOf(v)] + ToBits(vs)
    ensures vs != [] ==> ToBits(vs)[1..] == ToBits(vs[1..])
  {
  }

  lemma ConsTyped(t: Type, v: Val, ts: seq<Type>, vs: seq<Val>)
    requires HasType(v, t) && AllTyped(ts, vs)
    ensures AllTyped([t] + ts, [v] + vs)
  {
  }

  lemma UpdateBits(ts: seq<Type>, vs: seq<Val>, m: nat, v: Val)
    requires AllTyped(ts, vs) && m < |ts| && HasType(v, ts[m])
    ensures AllTyped(ts, vs[m := v]) && ToBits(vs[m := v]) == ToBits(vs)[m := BitsOf(v)]
  {
  }

  lemma TailTyped(t: Type, ts: seq<Type>, vs: seq<Val>)
    requires AllTyped([t] + ts, vs)
    ensures |vs| == |ts| + 1 && AllTyped(ts, vs[1..])
  {
    forall i | 0 <= i < |ts| ensures HasType(vs[1..][i], ts[i]) { assert HasType(vs[i + 1], ([t] + ts)[i + 1]); }
  }

  /** A condition holds on values exactly when it does on bits. */
  lemma ConditionBits(v: Val)
    requires HasType(v, BitsT(1))
    ensures v == BitsVal([true]) <==> Single(BitsOf(v))
  {
    assert v == BitsVal([v.bits[0]]);
  }

  lemma {:induction false} EraseCorrect(w: World, sig: seq<Type>, tau: Type, G: Ctx, l: Log, a: Action)
    requires w.Ready(sig, tau, G, l, a)
    ensures w.Agrees(sig, tau, G, l, a)
    decreases a, 1
  {
    match a
    case Fail(_) =>
    case Var(_, _) =>
    case Cst(_) =>
    case Assign(_, _, _) => EraseAssign(w, sig, tau, G, l, a);
    case Seq(r1, r2) => EraseSeq(w, sig, tau, G, l, a);
    case Bind(_, _, _, _) => EraseBind(w, sig, tau, G, l, a);
    case If(_, _, _) => EraseIf(w, sig, tau, G, l, a);
    case Read(p, idx) => EraseRead(w, sig, tau, G, l, a);
    case Write(_, _, _) => EraseWrite(w, sig, tau, G, l, a);
    case Unop(_, _) => EraseUnary(w, sig, tau, G, l, a);
    case Binop(_, _, _) => EraseBinary(w, sig, tau, G, l, a);
    case ExternalCall(_, _) => EraseExternal(w, sig, tau, G, l, a);
    case InternalCall(_, _, _) => EraseCall(w, sig, tau, G, l, a);
    case APos(b) =>
      EraseCorrect(w, sig, tau, G, l, b);
      assert w.Run(G, l, a) == w.Run(G, l, b) && w.Sem(G, l, a) == w.Sem(G, l, b);
  }

  lemma {:induction false} EraseAssign(w: World, sig: seq<Type>, tau: Type, G: Ctx, l: Log, a: Action)
    requires a.Assign? && w.Ready(sig, tau, G, l, a)
    ensures w.Agrees(sig, tau, G, l, a)
    decreases a, 0
  {
    hide LogTyped, HasType, ExtsTyped;
    EraseCorrect(w, sig, sig[a.m], G, l, a.ex);
    var o := w.Sem(G, l, a.ex);
    if o.Ok? { UpdateBits(sig, o.ctx, a.m, o.val); }
    assert HasType(BitsVal([]), BitsT(0)) by { UnitTyped(); }
  }

  lemma UnitTyped()
    ensures HasType(BitsVal([]), BitsT(0))
  {
  }

  lemma {:induction false} EraseSeq(w: World, sig: seq<Type>, tau: Type, G: Ctx, l: Log, a: Action)
    requires a.Seq? && w.Ready(sig, tau, G, l, a)
    ensures w.Agrees(sig, tau, G, l, a)
    decreases a, 0
  {
    hide LogTyped, HasType, AllTyped, ExtsTyped;
    EraseCorrect(w, sig, BitsT(0), G, l, a.r1);
    var o := w.Sem(G, l, a.r1);
    if o.Ok? { EraseCorrect(w, sig, tau, o.ctx, o.log, a.r2); }
  }

  lemma {:induction false} EraseBind(w: World, sig: seq<Type>, tau: Type, G: Ctx, l: Log, a: Action)
    requires a.Bind? && w.Ready(sig, tau, G, l, a)
    ensures w.Agrees(sig, tau, G, l, a)
    decreases a, 0
  {
    hide LogTyped, HasType, AllTyped, ExtsTyped;
    EraseCorrect(w, sig, a.tau, G, l, a.ex);
    var o := w.Sem(G, l, a.ex);
    if o.Ok? {
      ConsTyped(a.tau, o.val, sig, o.ctx);
      ConsBits(o.val, o.ctx);
      EraseCorrect(w, [a.tau] + sig, tau, [o.val] + o.ctx, o.log, a.body);
      var q := w.Sem([o.val] + o.ctx, o.log, a.body);
      if q.Ok? {
        TailTyped(a.tau, sig, q.ctx);
        ConsBits(q.val, q.ctx);
      }
    }
  }

  lemma {:induction false} EraseIf(w: World, sig: seq<Type>, tau: Type, G: Ctx, l: Log, a: Action)
    requires a.If? && w.Ready(sig, tau, G, l, a)
    ensures w.Agrees(sig, tau, G, l, a)
    decreases a, 0
  {
    hide LogTyped, HasType, AllTyped, ExtsTyped;
    EraseCorrect(w, sig, BitsT(1), G, l, a.cond);
    var o := w.Sem(G, l, a.cond);
    if o.Ok? {
      ConditionBits(o.val);
      EraseCorrect(w, sig, tau, o.ctx, o.log, if o.val == BitsVal([true]) then a.tbranch else a.fbranch);
    }
  }

  lemma {:induction false} EraseRead(w: World, sig: seq<Type>, tau: Type, G: Ctx, l: Log, a: Action)
    requires a.Read? && w.Ready(sig, tau, G, l, a)
    ensures w.Agrees(sig, tau, G, l, a)
  {
    hide LogTyped, HasType, ExtsTyped, Push, LowLogs.Push;
    ChecksBits(w.L, l, a.port, a.idx);
    ReadBits(w.g.regs, w.r, w.L, l, a.port, a.idx);
    PushBits(w.g.regs, l, a.idx, Rd(a.port));
  }

  lemma {:induction false} EraseWrite(w: World, sig: seq<Type>, tau: Type, G: Ctx, l: Log, a: Action)
    requires a.Write? && w.Ready(sig, tau, G, l, a)
    ensures w.Agrees(sig, tau, G, l, a)
    decreases a, 0
  {
    hide LogTyped, HasType, ExtsTyped, Push, LowLogs.Push;
    EraseCorrect(w, sig, w.g.regs[a.idx], G, l, a.value);
    var o := w.Sem(G, l, a.value);
    if o.Ok? {
      ChecksBits(w.L, o.log, a.port, a.idx);
      PushBits(w.g.regs, o.log, a.idx, Wr(a.port, o.val));
      UnitTyped();
    }
  }

  lemma {:induction false} EraseUnary(w: World, sig: seq<Type>, tau: Type, G: Ctx, l: Log, a: Action)
    requires a.Unop? && w.Ready(sig, tau, G, l, a)
    ensures w.Agrees(sig, tau, G, l, a)
    decreases a, 0
  {
    hide LogTyped, HasType, AllTyped, ExtsTyped, EraseUnop, UnopBits, Fn1.Apply;
    UnaryScoped(w, G, a);
    EraseCorrect(w, sig, a.fn1.Arg(), G, l, a.arg);
    EraseUnopMeans(ToBits(w.r), ExtBits(w.g, w.sigma), ToBits(G), LogBits(w.L), LogBits(l), a.fn1, Erase(a.arg));
    var o := w.Sem(G, l, a.arg);
    if o.Ok? { UnopCorrect(a.fn1, o.val); }
  }

  lemma {:induction false} UnaryScoped(w: World, G: Ctx, a: Action)
    requires a.Unop? && a.fn1.Valid() && Scoped(a, |w.r|, |G|)
    ensures Scoped(a.arg, |w.r|, |G|)
  {
  }

  lemma {:induction false} EraseBinary(w: World, sig: seq<Type>, tau: Type, G: Ctx, l: Log, a: Action)
    requires a.Binop? && w.Ready(sig, tau, G, l, a)
    ensures w.Agrees(sig, tau, G, l, a)
    decreases a, 0
  {
    hide LogTyped, HasType, AllTyped, ExtsTyped, EraseBinop, Sigma2, Fn2.Apply;
    EraseCorrect(w, sig, a.fn2.Arg1(), G, l, a.arg1);
    var o := w.Sem(G, l, a.arg1);
    if o.Ok? {
      EraseCorrect(w, sig, a.fn2.Arg2(), o.ctx, o.log, a.arg2);
      var q := w.Sem(o.ctx, o.log, a.arg2);
      if q.Ok? { BinopCorrect(a.fn2, o.val, q.val); }
    }
  }

  lemma {:induction false} EraseExternal(w: World, sig: seq<Type>, tau: Type, G: Ctx, l: Log, a: Action)
    requires a.ExternalCall? && w.Ready(sig, tau, G, l, a)
    ensures w.Agrees(sig, tau, G, l, a)
    decreases a, 0
  {
    hide LogTyped, HasType, AllTyped;
    EraseCorrect(w, sig, w.g.exts[a.ext].arg, G, l, a.arg);
    var o := w.Sem(G, l, a.arg);
    if o.Ok? { OfBitsOf(o.val, w.g.exts[a.ext].arg); }
  }

  lemma {:induction false} EraseCall(w: World, sig: seq<Type>, tau: Type, G: Ctx, l: Log, a: Action)
    requires a.InternalCall? && w.Ready(sig, tau, G, l, a)
    ensures w.Agrees(sig, tau, G, l, a)
    decreases a, 0
  {
    hide LogTyped, HasType, ExtsTyped;
    EraseArgsCorrect(w, sig, G, l, a.args);
    var o := w.SemArgs(G, l, a.args);
    if o.ArgsOk? { EraseCorrect(w, ArgTypes(a.args), tau, o.vals, o.log, a.body); }
  }

  lemma {:induction false} EraseArgsCorrect(w: World, sig: seq<Type>, G: Ctx, l: Log, args: Args)
    requires w.ArgsReady(sig, G, l, args)
    ensures w.ArgsAgree(sig, G, l, args)
    decreases args, 1
  {
    hide LogTyped, HasType, ExtsTyped;
    match args
    case NoArgs =>
    case MoreArgs(_, tau, arg, rest) =>
      EraseArgsCorrect(w, sig, G, l, rest);
      var o := w.SemArgs(G, l, rest);
      if o.ArgsOk? {
        EraseCorrect(w, sig, tau, o.ctx, o.log, arg);
        var q := w.Sem(o.ctx, o.log, arg);
        if q.Ok? {
          ConsTyped(tau, q.val, ArgTypes(rest), o.vals);
          ConsBits(q.val, o.vals);
        }
      }
  }

  // ----- widths -----

  lemma ConsSizes(t: Type, ts: seq<Type>)
    ensures Sizes([t] + ts) == [SizeOf(t)] + Sizes(ts)
  {
  }

  /** The bit-level form of a well-typed action has the widths of its types. */
  lemma {:induction false} ErasedTyped(g: Sigs, sig: seq<Type>, tau: Type, a: Action)
    requires Typed(g, sig, tau, a)
    ensures Low.Typed(SigsBits(g), Sizes(sig), SizeOf(tau), Erase(a))
    decreases a
  {
    hide HasType, EraseUnop, EraseBinop, Fn1.Arg, Fn1.Ret, Fn2.Arg1, Fn2.Arg2, Fn2.Ret, Fn1.Valid, Fn2.Valid;
    match a
    case Fail(_) =>
    case Var(_, _) =>
    case Cst(cst) => BitsWidth(cst, tau);
    case Assign(_, m, ex) => ErasedTyped(g, sig, sig[m], ex);
    case Seq(r1, r2) => ErasedTyped(g, sig, BitsT(0), r1); ErasedTyped(g, sig, tau, r2);
    case Bind(_, tau', ex, body) =>
      ErasedTyped(g, sig, tau', ex);
      ErasedTyped(g, [tau'] + sig, tau, body);
      ConsSizes(tau', sig);
    case If(cond, tbranch, fbranch) =>
      ErasedTyped(g, sig, BitsT(1), cond);
      ErasedTyped(g, sig, tau, tbranch);
      ErasedTyped(g, sig, tau, fbranch);
    case Read(_, _) =>
    case Write(_, idx, value) => ErasedTyped(g, sig, g.regs[idx], value);
    case Unop(fn, arg) =>
      ErasedTyped(g, sig, fn.Arg(), arg);
      ErasedUnopTyped(g, sig, fn, arg);
    case Binop(fn, arg1, arg2) =>
      ErasedTyped(g, sig, fn.Arg1(), arg1);
      ErasedTyped(g, sig, fn.Arg2(), arg2);
      ErasedBinopTyped(fn);
    case ExternalCall(ext, arg) => ErasedTyped(g, sig, g.exts[ext].arg, arg);
    case InternalCall(_, args, body) =>
      ErasedArgsTyped(g, sig, args);
      ErasedTyped(g, ArgTypes(args), tau, body);
    case APos(a) => ErasedTyped(g, sig, tau, a);
  }

  lemma {:induction false} ErasedUnopTyped(g: Sigs, sig: seq<Type>, fn: Fn1, arg: Action)
    requires fn.Valid() && Low.Typed(SigsBits(g), Sizes(sig), SizeOf(fn.Arg()), Erase(arg))
    ensures Low.Typed(SigsBits(g), Sizes(sig), SizeOf(fn.Ret()), EraseUnop(fn, Erase(arg)))
  {
  }

  lemma {:induction false} ErasedBinopTyped(fn: Fn2)
    requires fn.Valid()
    ensures EraseBinop(fn).Arg1() == SizeOf(fn.Arg1()) && EraseBinop(fn).Arg2() == SizeOf(fn.Arg2())
    ensures EraseBinop(fn).Ret() == SizeOf(fn.Ret())
  {
  }

  lemma {:induction false} ErasedArgsTyped(g: Sigs, sig: seq<Type>, args: Args)
    requires TypedArgs(g, sig, args)
    ensures Low.TypedArgs(SigsBits(g), Sizes(sig), EraseArgs(args)) && Low.ArgSizes(EraseArgs(args)) == Sizes(ArgTypes(args))
    decreases args
  {
    match args
    case NoArgs =>
    case MoreArgs(_, tau, arg, rest) =>
      ErasedTyped(g, sig, tau, arg);
      ErasedArgsTyped(g, sig, rest);
      ConsSizes(tau, ArgTypes(rest));
  }

  lemma {:induction false} TypedIsScoped(g: Sigs, sig: seq<Type>, tau: Type, a: Action)
    requires Typed(g, sig, tau, a)
    ensures Scoped(a, |g.regs|, |sig|)
  {
    ErasedTyped(g, sig, tau, a);
    Low.TypedIsScoped(SigsBits(g), Sizes(sig), SizeOf(tau), Erase(a));
  }

  lemma {:induction false} RulesScoped(g: Sigs, rules: Rules)
    requires TypedRules(g, rules)
    ensures ScopedRules(rules, |g.regs|) && Low.TypedRules(SigsBits(g), RulesBits(rules)) && Low.ScopedRules(RulesBits(rules), |g.regs|)
  {
    forall rl ensures Scoped(rules(rl), |g.regs|, 0) && Low.Typed(SigsBits(g), [], 0, RulesBits(rules)(rl)) {
      TypedIsScoped(g, [], BitsT(0), rules(rl));
      ErasedTyped(g, [], BitsT(0), rules(rl));
    }
  }

  // ----- the whole lowering: primitives on bits, and no calls -----

  function LowerAction(a: Action, vars: nat): Low.Action { Lowering.Lower(Erase(a), vars) }

  /** The lowered action has the widths of the types, and its run on bits is the typed
      action's run, in bits. */
  lemma {:induction false} LowerActionCorrect(w: World, sig: seq<Type>, tau: Type, G: Ctx, l: Log, a: Action)
    requires w.Valid() && w.At(sig, G, l) && Typed(w.g, sig, tau, a) && |w.L| == |w.r| == |l|
    ensures Low.Typed(SigsBits(w.g), Sizes(sig), SizeOf(tau), LowerAction(a, |sig|)) && Low.Lowered(LowerAction(a, |sig|))
    ensures Scoped(a, |w.r|, |G|) && Low.Scoped(LowerAction(a, |sig|), |w.r|, |G|)
    ensures LowSem.InterpAction(ToBits(w.r), ExtBits(w.g, w.sigma), ToBits(G), LogBits(w.L), LogBits(l), LowerAction(a, |sig|)) ==
            OutcomeBits(w.Sem(G, l, a))
    ensures w.OutcomeTyped(sig, tau, w.Sem(G, l, a))
  {
    hide LowSem.InterpAction, InterpAction;
    ErasedTyped(w.g, sig, tau, a);
    TypedIsScoped(w.g, sig, tau, a);
    Lowering.LowerTyped(SigsBits(w.g), Sizes(sig), SizeOf(tau), Erase(a));
    Low.TypedIsScoped(SigsBits(w.g), Sizes(sig), SizeOf(tau), LowerAction(a, |sig|));
    EraseCorrect(w, sig, tau, G, l, a);
    Lowering.LowerCorrect(ToBits(w.r), ExtBits(w.g, w.sigma), ToBits(G), LogBits(w.L), LogBits(l), Erase(a));
  }

  // ----- rules, schedulers and cycles -----

  lemma {:induction false} EraseRule(w: World, a: Action)
    requires w.Valid() && Typed(w.g, [], BitsT(0), a) && |w.r| == |w.L|
    ensures Scoped(a, |w.r|, 0)
    ensures var o := InterpRule(w.r, w.sigma, w.L, a);
            && LowSem.InterpRule(ToBits(w.r), ExtBits(w.g, w.sigma), LogBits(w.L), Erase(a)) ==
               (if o.Some? then Low.Some(LogBits(o.value)) else Low.None)
            && (o.Some? ==> LogTyped(w.g.regs, o.value))
  {
    TypedIsScoped(w.g, [], BitsT(0), a);
    EmptyBits(w.g.regs);
    assert ToBits([]) == [];
    EraseCorrect(w, [], BitsT(0), [], Empty(|w.r|), a);
  }

  lemma {:induction false} AppTyped(ts: seq<Type>, l: Log, L: Log)
    requires LogTyped(ts, l) && LogTyped(ts, L)
    ensures LogTyped(ts, App(l, L))
  {
  }

  lemma {:induction false} EraseScheduler(w: World, rules: Rules, s: Low.Scheduler)
    requires w.Valid() && TypedRules(w.g, rules) && |w.r| == |w.L|
    ensures ScopedRules(rules, |w.r|) && Low.ScopedRules(RulesBits(rules), |w.r|)
    ensures var L' := InterpScheduler(w.r, w.sigma, rules, w.L, s);
            && LowSem.InterpScheduler(ToBits(w.r), ExtBits(w.g, w.sigma), RulesBits(rules), LogBits(w.L), s) == LogBits(L')
            && LogTyped(w.g.regs, L')
    decreases s, 1
  {
    RulesScoped(w.g, rules);
    match s
    case Done =>
    case Cons(rl, s1) => EraseTry(w, rules, s, rl, s1, s1);
    case Try(rl, s1, s2) => EraseTry(w, rules, s, rl, s1, s2);
    case SPos(s1) => EraseScheduler(w, rules, s1);
  }

  lemma {:induction false} EraseTry(w: World, rules: Rules, s: Low.Scheduler, rl: Low.RuleName, s1: Low.Scheduler, s2: Low.Scheduler)
    requires (s == Low.Cons(rl, s1) && s2 == s1) || s == Low.Try(rl, s1, s2)
    requires w.Valid() && TypedRules(w.g, rules) && |w.r| == |w.L|
    requires ScopedRules(rules, |w.r|) && Low.ScopedRules(RulesBits(rules), |w.r|)
    ensures var L' := InterpScheduler(w.r, w.sigma, rules, w.L, s);
            && LowSem.InterpScheduler(ToBits(w.r), ExtBits(w.g, w.sigma), RulesBits(rules), LogBits(w.L), s) == LogBits(L')
            && LogTyped(w.g.regs, L')
    decreases s, 0
  {
    hide LogTyped, InterpRule, LowSem.InterpRule, Typed, AllTyped, ExtsTyped;
    assert Typed(w.g, [], BitsT(0), rules(rl));
    EraseRule(w, rules(rl));
    var o := InterpRule(w.r, w.sigma, w.L, rules(rl));
    if o.Some? {
      var w' := w.(L := App(o.value, w.L));
      AppTyped(w.g.regs, o.value, w.L);
      AppBits(o.value, w.L);
      EraseScheduler(w', rules, s1);
    } else {
      EraseScheduler(w, rules, s2);
    }
  }

  /** One cycle over typed values, in bits, is the cycle of the bit-level program. */
  lemma {:induction false} CycleErases(g: Sigs, rules: Rules, sigma: ExtFun, s: Low.Scheduler, r: RegFile)
    requires TypedRules(g, rules) && ExtsTyped(g, sigma) && AllTyped(g.regs, r)
    ensures ScopedRules(rules, |r|) && Low.ScopedRules(RulesBits(rules), |r|)
    ensures LowSem.InterpCycle(ExtBits(g, sigma), RulesBits(rules), s, ToBits(r)) == ToBits(InterpCycle(sigma, rules, s, r))
    ensures AllTyped(g.regs, InterpCycle(sigma, rules, s, r))
  {
    var w := World(g, r, sigma, Empty(|r|));
    EmptyBits(g.regs);
    EraseScheduler(w, rules, s);
    CommitBits(g.regs, r, InterpScheduler(r, sigma, rules, Empty(|r|), s));
  }

  /** And so for any number of cycles. */
  lemma {:induction false} CyclesErase(g: Sigs, rules: Rules, sigma: ExtFun, s: Low.Scheduler, r: RegFile, k: nat)
    requires TypedRules(g, rules) && ExtsTyped(g, sigma) && AllTyped(g.regs, r)
    ensures ScopedRules(rules, |r|) && Low.ScopedRules(RulesBits(rules), |r|)
    ensures LowSem.InterpCycles(ExtBits(g, sigma), RulesBits(rules), s, ToBits(r), k) == ToBits(InterpCycles(sigma, rules, s, r, k))
    ensures AllTyped(g.regs, InterpCycles(sigma, rules, s, r, k))
    decreases k
  {
    CycleErases(g, rules, sigma, s, r);
    if k > 0 { CyclesErase(g, rules, sigma, s, InterpCycle(sigma, rules, s, r), k - 1); }
  }

  /** The registers after one cycle of the lowered program are the bits of those after
      one cycle of the typed program. */
  lemma {:induction false} LoweredCycle(g: Sigs, rules: Rules, sigma: ExtFun, s: Low.Scheduler, r: RegFile)
    requires TypedRules(g, rules) && ExtsTyped(g, sigma) && AllTyped(g.regs, r)
    ensures ScopedRules(rules, |r|) && Low.ScopedRules(Lowering.LowerRules(RulesBits(rules)), |r|)
    ensures LowSem.InterpCycle(ExtBits(g, sigma), Lowering.LowerRules(RulesBits(rules)), s, ToBits(r)) ==
            ToBits(InterpCycle(sigma, rules, s, r))
  {
    CycleErases(g, rules, sigma, s, r);
    Lowering.LowerRulesScoped(RulesBits(rules), |r|);
    Lowering.CycleLoweringCorrect(ExtBits(g, sigma), RulesBits(rules), s, ToBits(r));
  }
}
