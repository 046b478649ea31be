/** How large the stack of touched registers has to be: the source's count, the number
    that every run of the emitted code stays within, and where the two part. */
module LogSize {
  import opened BitVectors
  import opened Primitives
  import opened Syntax
  import opened Logs
  import opened Semantics
  import opened Histories
  import opened Emission
  import opened Cuttlesim
  import opened EmissionCorrectness
  import opened Walks

  // ----- counting accesses -----

  /** The source's bound, which counts a write but not the value written. */
  function RuleMaxLogSize(a: Action): nat {
    match a
    case Assign(_, _, ex) => RuleMaxLogSize(ex)
    case Seq(r1, r2) => RuleMaxLogSize(r1) + RuleMaxLogSize(r2)
    case Bind(_, _, ex, body) => RuleMaxLogSize(ex) + RuleMaxLogSize(body)
    case If(cond, tbranch, fbranch) => RuleMaxLogSize(cond) + Max(RuleMaxLogSize(tbranch), RuleMaxLogSize(fbranch))
    case Read(_, _) => 1
    case Write(_, _, _) => 1
    case Unop(_, arg) => RuleMaxLogSize(arg)
    case Binop(_, arg1, arg2) => RuleMaxLogSize(arg1) + RuleMaxLogSize(arg2)
    case ExternalCall(_, arg) => RuleMaxLogSize(arg)
    case InternalCall(_, args, body) => ArgsMaxLogSize(args) + RuleMaxLogSize(body)
    case APos(a) => RuleMaxLogSize(a)
    case _ => 0
  }

  function ArgsMaxLogSize(args: Args): nat {
    match args
    case NoArgs => 0
    case MoreArgs(_, _, arg, rest) => RuleMaxLogSize(arg) + ArgsMaxLogSize(rest)
  }

  /** The accesses that evaluating written values adds on top, in the worst case. */
  function ValueAccesses(a: Action): nat {
    match a
    case Assign(_, _, ex) => ValueAccesses(ex)
    case Seq(r1, r2) => ValueAccesses(r1) + ValueAccesses(r2)
    case Bind(_, _, ex, body) => ValueAccesses(ex) + ValueAccesses(body)
    case If(cond, tbranch, fbranch) => ValueAccesses(cond) + Max(ValueAccesses(tbranch), ValueAccesses(fbranch))
    case Write(_, _, value) => RuleMaxLogSize(value) + ValueAccesses(value)
    case Unop(_, arg) => ValueAccesses(arg)
    case Binop(_, arg1, arg2) => ValueAccesses(arg1) + ValueAccesses(arg2)
    case ExternalCall(_, arg) => ValueAccesses(arg)
    case InternalCall(_, args, body) => ArgsValueAccesses(args) + ValueAccesses(body)
    case APos(a) => ValueAccesses(a)
    case _ => 0
  }

  function ArgsValueAccesses(args: Args): nat {
    match args
    case NoArgs => 0
    case MoreArgs(_, _, arg, rest) => ValueAccesses(arg) + ArgsValueAccesses(rest)
  }

  /** The accesses on the longest path: the source's count with written values included. */
  function LogSize(a: Action): nat {
    match a
    case Assign(_, _, ex) => LogSize(ex)
    case Seq(r1, r2) => LogSize(r1) + LogSize(r2)
    case Bind(_, _, ex, body) => LogSize(ex) + LogSize(body)
    case If(cond, tbranch, fbranch) => LogSize(cond) + Max(LogSize(tbranch), LogSize(fbranch))
    case Read(_, _) => 1
    case Write(_, _, value) => LogSize(value) + 1
    case Unop(_, arg) => LogSize(arg)
    case Binop(_, arg1, arg2) => LogSize(arg1) + LogSize(arg2)
    case ExternalCall(_, arg) => LogSize(arg)
    case InternalCall(_, args, body) => ArgsLogSize(args) + LogSize(body)
    case APos(a) => LogSize(a)
    case _ => 0
  }

  function ArgsLogSize(args: Args): nat {
    match args
    case NoArgs => 0
    case MoreArgs(_, _, arg, rest) => LogSize(arg) + ArgsLogSize(rest)
  }

  predicate Straight(a: Action) {
    match a
    case Assign(_, _, ex) => Straight(ex)
    case Seq(r1, r2) => Straight(r1) && Straight(r2)
    case Bind(_, _, ex, body) => Straight(ex) && Straight(body)
    case If(_, _, _) => false
    case Write(_, _, value) => Straight(value)
    case Unop(_, arg) => Straight(arg)
    case Binop(_, arg1, arg2) => Straight(arg1) && Straight(arg2)
    case ExternalCall(_, arg) => Straight(arg)
    case InternalCall(_, args, body) => StraightArgs(args) && Straight(body)
    case APos(a) => Straight(a)
    case _ => true
  }

  predicate StraightArgs(args: Args) {
    match args
    case NoArgs => true
    case MoreArgs(_, _, arg, rest) => Straight(arg) && StraightArgs(rest)
  }

  /** The source's count is too small by what written values access, at most. */
  lemma {:induction false} SizeGap(a: Action)
    ensures RuleMaxLogSize(a) <= LogSize(a) <= RuleMaxLogSize(a) + ValueAccesses(a)
    decreases a
  {
    match a
    case Assign(_, _, ex) => SizeGap(ex);
    case Seq(r1, r2) => SizeGap(r1); SizeGap(r2);
    case Bind(_, _, ex, body) => SizeGap(ex); SizeGap(body);
    case If(cond, tbranch, fbranch) => SizeGap(cond); SizeGap(tbranch); SizeGap(fbranch);
    case Write(_, _, value) => SizeGap(value);
    case Unop(_, arg) => SizeGap(arg);
    case Binop(_, arg1, arg2) => SizeGap(arg1); SizeGap(arg2);
    case ExternalCall(_, arg) => SizeGap(arg);
    case InternalCall(_, args, body) => ArgsSizeGap(args); SizeGap(body);
    case APos(a) => SizeGap(a);
    case _ =>
  }

  lemma {:induction false} ArgsSizeGap(args: Args)
    ensures ArgsMaxLogSize(args) <= ArgsLogSize(args) <= ArgsMaxLogSize(args) + ArgsValueAccesses(args)
    decreases args
  {
    match args
    case NoArgs =>
    case MoreArgs(_, _, arg, rest) => SizeGap(arg); ArgsSizeGap(rest);
  }

  /** Without branches, by exactly that. */
  lemma {:induction false} StraightSize(a: Action)
    requires Straight(a)
    ensures LogSize(a) == RuleMaxLogSize(a) + ValueAccesses(a)
    decreases a
  {
    match a
    case Assign(_, _, ex) => StraightSize(ex);
    case Seq(r1, r2) => StraightSize(r1); StraightSize(r2);
    case Bind(_, _, ex, body) => StraightSize(ex); StraightSize(body);
    case Write(_, _, value) => StraightSize(value);
    case Unop(_, arg) => StraightSize(arg);
    case Binop(_, arg1, arg2) => StraightSize(arg1); StraightSize(arg2);
    case ExternalCall(_, arg) => StraightSize(arg);
    case InternalCall(_, args, body) => StraightArgsSize(args); StraightSize(body);
    case APos(a) => StraightSize(a);
    case _ =>
  }

  lemma {:induction false} StraightArgsSize(args: Args)
    requires StraightArgs(args)
    ensures ArgsLogSize(args) == ArgsMaxLogSize(args) + ArgsValueAccesses(args)
    decreases args
  {
    match args
    case NoArgs =>
    case MoreArgs(_, _, arg, rest) => StraightSize(arg); StraightArgsSize(rest);
  }

  // ----- runs of emitted code, to their end or to a failure -----

  /** The accesses in the code, on the longest path. */
  function CodeSize(c: Code): nat {
    match c
    case Then(c1, c2) => CodeSize(c1) + CodeSize(c2)
    case ReadInto(_, _, _) => 1
    case WriteReg(_, _, _) => 1
    case CallInto(_, _, body) => CodeSize(body)
    case Branch(_, c1, c2) => Max(CodeSize(c1), CodeSize(c2))
    case _ => 0
  }

  /** What a run pushes: an access is pushed before it is checked, unless its register
      never conflicts. */
  function Pushes(ru: Rule, st: State, env: Env, c: Code): nat
    requires ru.Valid() && WellShaped(ru.kinds, st) && Compiles(ru.kinds, c)
    decreases c
  {
    match c
    case Then(c1, c2) =>
      Pushes(ru, st, env, c1) +
      (match RunCode(ru, st, env, c1)
       case Stopped(_) => 0
       case Running(st, env) => Pushes(ru, st, env, c2))
    case ReadInto(_, _, idx) => if ru.kinds[idx] == Value then 0 else 1
    case WriteReg(_, idx, _) => if ru.kinds[idx] == Value then 0 else 1
    case CallInto(_, args, body) => Pushes(ru, st, CalleeEnv(EvalAll(env, args)), body)
    case Branch(e, c1, c2) => if Single(Eval(env, e)) then Pushes(ru, st, env, c1) else Pushes(ru, st, env, c2)
    case _ => 0
  }

  lemma {:induction false} PushesFit(ru: Rule, st: State, env: Env, c: Code)
    requires ru.Valid() && WellShaped(ru.kinds, st) && Compiles(ru.kinds, c)
    ensures Pushes(ru, st, env, c) <= CodeSize(c)
    decreases c
  {
    match c
    case Then(c1, c2) =>
      PushesFit(ru, st, env, c1);
      var res := RunCode(ru, st, env, c1);
      if res.Running? { PushesFit(ru, res.st, res.env, c2); }
    case CallInto(_, args, body) => PushesFit(ru, st, CalleeEnv(EvalAll(env, args)), body);
    case Branch(e, c1, c2) => if Single(Eval(env, e)) { PushesFit(ru, st, env, c1); } else { PushesFit(ru, st, env, c2); }
    case _ =>
  }

  predicate NoBranch(c: Code) {
    match c
    case Then(c1, c2) => NoBranch(c1) && NoBranch(c2)
    case CallInto(_, _, body) => NoBranch(body)
    case Branch(_, _, _) => false
    case _ => true
  }

  /** Without branches and registers that never conflict, a run that ends pushes it all. */
  lemma {:induction false} PushesAll(ru: Rule, st: State, env: Env, c: Code)
    requires ru.Valid() && WellShaped(ru.kinds, st) && Compiles(ru.kinds, c) && NoBranch(c)
    requires Value !in ru.kinds
    ensures RunCode(ru, st, env, c).Running? ==> Pushes(ru, st, env, c) == CodeSize(c)
    decreases c
  {
    match c
    case Then(c1, c2) =>
      PushesAll(ru, st, env, c1);
      var res := RunCode(ru, st, env, c1);
      if res.Running? { PushesAll(ru, res.st, res.env, c2); }
    case CallInto(_, args, body) => PushesAll(ru, st, CalleeEnv(EvalAll(env, args)), body);
    case _ =>
  }

  /** Emitting an action neither drops nor repeats an access. */
  lemma {:induction false} EmittedSize(h: HistoryMap, scope: Scope, k: nat, t: Target, a: Action)
    ensures CodeSize(Emit(h, scope, k, t, a).code) == LogSize(a) && NoBranch(Emit(h, scope, k, t, a).code) == Straight(a)
    decreases a, 1
  {
    hide Resolve, Declaring;
    match a
    case Assign(x, _, ex) => EmittedSize(h, scope, k, Into(Some(x), Resolve(scope, x), true), ex);
    case Seq(r1, r2) =>
      EmittedSize(h, scope, k, NoTarget, r1);
      EmittedSize(After(h, r1), scope, Emit(h, scope, k, NoTarget, r1).next, t, r2);
    case Bind(_, _, _, _) => BindSize(h, scope, k, t, a);
    case If(_, _, _) => IfSize(h, scope, k, t, a);
    case Write(_, _, value) => EmittedSize(h, scope, k + 1, Into(None, k, false), value);
    case Unop(_, _) => UnopSize(h, scope, k, t, a);
    case Binop(_, _, _) => BinopSize(h, scope, k, t, a);
    case ExternalCall(_, arg) => EmittedSize(h, scope, k + 1, Into(None, k, false), arg);
    case InternalCall(_, _, _) => CallSize(h, scope, k, t, a);
    case APos(a) => EmittedSize(h, scope, k, t, a);
    case _ =>
  }

  lemma {:induction false} UnopSize(h: HistoryMap, scope: Scope, k: nat, t: Target, a: Action)
    requires a.Unop?
    ensures CodeSize(Emit(h, scope, k, t, a).code) == LogSize(a) && NoBranch(Emit(h, scope, k, t, a).code) == Straight(a)
    decreases a, 0
  {
    if a.fn1.IgnoreBits? {
      EmittedSize(h, scope, k, NoTarget, a.arg);
    } else {
      EmittedSize(h, scope, k + 1, Into(None, k, false), a.arg);
    }
  }

  lemma {:induction false} BinopSize(h: HistoryMap, scope: Scope, k: nat, t: Target, a: Action)
    requires a.Binop?
    ensures CodeSize(Emit(h, scope, k, t, a).code) == LogSize(a) && NoBranch(Emit(h, scope, k, t, a).code) == Straight(a)
    decreases a, 0
  {
    hide Declaring, Emit;
    var reused := t.Into? && Reuses(a.fn2);
    var (k1, t1) := (if reused then k else k + 1, if reused then t else Into(None, k, false));
    var e1 := Emit(h, scope, k1, t1, a.arg1);
    EmittedSize(h, scope, k1, t1, a.arg1);
    EmittedSize(After(h, a.arg1), if reused then Declaring(scope, t, e1.declared) else scope, e1.next + 1,
                Into(None, e1.next, false), a.arg2);
    BinopCode(Spot([], [], scope, {}, k), h, t, a);
    var e2 := Emit(After(h, a.arg1), if reused then Declaring(scope, t, e1.declared) else scope, e1.next + 1,
                   Into(None, e1.next, false), a.arg2);
    var both := Then(e1.code, e2.code);
    assert CodeSize(both) == LogSize(a) && NoBranch(both) == Straight(a);
    if InPlace(a.fn2) {
      var x := if t.Into? then Reached(Declaring(scope, t, true), Declared(t)) else e2.next;
      FieldSize(a.fn2, x, TextOf(e1.res), TextOf(e2.res));
    }
  }

  lemma FieldSize(fn: Fbits2, x: nat, whole: Expr, part: Expr)
    ensures CodeSize(SetField(fn, x, whole, part)) == 0 && NoBranch(SetField(fn, x, whole, part))
  {
  }

  lemma AssignSize(scope: Scope, t: Target, res: Option<Expr>)
    ensures CodeSize(AssignTo(scope, t, res).0) == 0 && NoBranch(AssignTo(scope, t, res).0)
  {
  }

  lemma {:induction false} BindSize(h: HistoryMap, scope: Scope, k: nat, t: Target, a: Action)
    requires a.Bind?
    ensures CodeSize(Emit(h, scope, k, t, a).code) == LogSize(a) && NoBranch(Emit(h, scope, k, t, a).code) == Straight(a)
    decreases a, 0
  {
    hide Emit, Declaring;
    var (x, ex, scope') := (a.name, a.ex, Declaring(scope, t, true));
    BindCode(Spot([], [], scope, {}, k), h, t, a);
    BindingSize(h, scope', k, x, ex);
    var b := EmitBinding(h, scope', k, x, ex);
    var inner := [(x, k)] + scope';
    EmittedSize(After(h, ex), inner, b.next, Declared(t), a.body);
    AssignSize(inner, Declared(t), Emit(After(h, ex), inner, b.next, Declared(t), a.body).res);
  }

  lemma {:induction false} BindingSize(h: HistoryMap, scope: Scope, k: nat, x: string, ex: Action)
    ensures CodeSize(EmitBinding(h, scope, k, x, ex).code) == LogSize(ex) && NoBranch(EmitBinding(h, scope, k, x, ex).code) == Straight(ex)
    decreases ex, 2
  {
    hide Emit;
    if Mentions(x, ex) {
      var t := Into(None, k + 1, false);
      var e := Emit(h, scope, k + 2, t, ex);
      EmittedSize(h, scope, k + 2, t, ex);
      AssignSize(scope, t.(declared := e.declared), e.res);
    } else {
      var t := Into(Some(x), k, false);
      var e := Emit(h, scope, k + 1, t, ex);
      EmittedSize(h, scope, k + 1, t, ex);
      AssignSize(Declaring(scope, t, e.declared), t.(declared := e.declared), e.res);
    }
  }

  lemma {:induction false} IfSize(h: HistoryMap, scope: Scope, k: nat, t: Target, a: Action)
    requires a.If?
    ensures CodeSize(Emit(h, scope, k, t, a).code) == LogSize(a) && NoBranch(Emit(h, scope, k, t, a).code) == Straight(a)
    decreases a, 0
  {
    hide Emit, Declaring;
    var (h', scope', t') := (After(h, a.cond), Declaring(scope, t, true), Declared(t));
    IfCode(Spot([], [], scope, {}, k), h, t, a);
    var e := Emit(h, scope', k + 1, Into(None, k, false), a.cond);
    var e1 := Emit(h', scope', e.next, t', a.tbranch);
    var e2 := Emit(h', scope', e1.next, t', a.fbranch);
    EmittedSize(h, scope', k + 1, Into(None, k, false), a.cond);
    EmittedSize(h', scope', e.next, t', a.tbranch);
    EmittedSize(h', scope', e1.next, t', a.fbranch);
    AssignSize(scope', t', e1.res);
    AssignSize(scope', t', e2.res);
    var (c1, c2) := (AssignTo(scope', t', e1.res).0, AssignTo(scope', t', e2.res).0);
    assert CodeSize(Then(e1.code, c1)) == LogSize(a.tbranch) && CodeSize(Then(e2.code, c2)) == LogSize(a.fbranch);
    var br := Branch(TextOf(e.res), Then(e1.code, c1), Then(e2.code, c2));
    assert CodeSize(br) == Max(LogSize(a.tbranch), LogSize(a.fbranch));
    assert CodeSize(Then(e.code, br)) == LogSize(a);
  }

  lemma {:induction false} CallSize(h: HistoryMap, scope: Scope, k: nat, t: Target, a: Action)
    requires a.InternalCall?
    ensures CodeSize(Emit(h, scope, k, t, a).code) == LogSize(a) && NoBranch(Emit(h, scope, k, t, a).code) == Straight(a)
    decreases a, 0
  {
    hide Emit, EmitArgs, Params;
    var (args, body) := (a.args, a.body);
    CallCode(Spot([], [], scope, {}, k), h, t, a);
    ArgsSize(h, scope, k, args);
    var e := Emit(AfterArgs(h, args), Params(args, 1), ArgCount(args) + 1, Into(None, 0, true), body);
    EmittedSize(AfterArgs(h, args), Params(args, 1), ArgCount(args) + 1, Into(None, 0, true), body);
    AssignSize(Params(args, 1), Into(None, 0, true), e.res);
    var (f, c) := (EmitFunction(AfterArgs(h, args), args, body), EmitArgs(h, scope, k, args));
    assert CodeSize(f) == LogSize(body) && NoBranch(f) == Straight(body);
    assert CodeSize(CallInto(Dst(scope, t), c.1, f)) == CodeSize(f) && NoBranch(CallInto(Dst(scope, t), c.1, f)) == NoBranch(f);
  }

  lemma {:induction false} ArgsSize(h: HistoryMap, scope: Scope, k: nat, args: Args)
    ensures CodeSize(EmitArgs(h, scope, k, args).0) == ArgsLogSize(args) && NoBranch(EmitArgs(h, scope, k, args).0) == StraightArgs(args)
    decreases args
  {
    match args
    case NoArgs =>
    case MoreArgs(_, _, arg, rest) =>
      EmittedSize(h, scope, k + 1, Into(None, k, false), arg);
      ArgsSize(After(h, arg), scope, Emit(h, scope, k + 1, Into(None, k, false), arg).next, rest);
  }

  /** A run that ends, of a rule without branches whose registers all record accesses,
      overruns the source's capacity exactly when a written value makes an access. */
  lemma {:induction false} PushExact(ru: Rule, st: State, rule: Action)
    requires ru.Valid() && WellShaped(ru.kinds, st) && Compiles(ru.kinds, EmitRule(|ru.kinds|, rule))
    requires Straight(rule) && Value !in ru.kinds && RunCode(ru, st, map[], EmitRule(|ru.kinds|, rule)).Running?
    ensures Pushes(ru, st, map[], EmitRule(|ru.kinds|, rule)) == RuleMaxLogSize(rule) + ValueAccesses(rule)
  {
    EmittedSize(EmptyMap(|ru.kinds|), [], 0, NoTarget, rule);
    PushesAll(ru, st, map[], EmitRule(|ru.kinds|, rule));
    StraightSize(rule);
  }

  /** No run of a rule, failing or not, pushes more than the longest path accesses; so
      the source's capacity is enough for rules that write only values free of accesses. */
  lemma {:induction false} PushBound(ru: Rule, st: State, rule: Action)
    requires ru.Valid() && WellShaped(ru.kinds, st) && Compiles(ru.kinds, EmitRule(|ru.kinds|, rule))
    ensures Pushes(ru, st, map[], EmitRule(|ru.kinds|, rule)) <= LogSize(rule) <= RuleMaxLogSize(rule) + ValueAccesses(rule)
  {
    PushesFit(ru, st, map[], EmitRule(|ru.kinds|, rule));
    EmittedSize(EmptyMap(|ru.kinds|), [], 0, NoTarget, rule);
    SizeGap(rule);
  }

  // ----- the semantics -----

  function Events(l: Log): nat { if l == [] then 0 else |l[0]| + Events(l[1..]) }

  lemma {:induction false} PushEvents(l: Log, idx: nat, e: Entry)
    requires idx < |l|
    ensures Events(Push(l, idx, e)) == Events(l) + 1
    decreases idx
  {
    if idx > 0 {
      PushEvents(l[1..], idx - 1, e);
      assert Push(l, idx, e)[1..] == Push(l[1..], idx - 1, e);
    }
  }

  /** No successful run of the semantics logs more either. */
  lemma {:induction false} LogSizeBound(r: RegFile, sigma: ExtFun, G: Ctx, L: Log, l: Log, a: Action)
    requires Scoped(a, |r|, |G|) && |L| == |l| == |r|
    ensures var o := InterpAction(r, sigma, G, L, l, a);
            o.Ok? ==> Events(o.log) <= Events(l) + LogSize(a)
    decreases a
  {
    match a
    case Assign(_, _, ex) => LogSizeBound(r, sigma, G, L, l, ex);
    case Seq(r1, r2) =>
      LogSizeBound(r, sigma, G, L, l, r1);
      var o := InterpAction(r, sigma, G, L, l, r1);
      if o.Ok? { LogSizeBound(r, sigma, o.ctx, L, o.log, r2); }
    case Bind(_, _, ex, body) =>
      LogSizeBound(r, sigma, G, L, l, ex);
      var o := InterpAction(r, sigma, G, L, l, ex);
      if o.Ok? { LogSizeBound(r, sigma, [o.val] + o.ctx, L, o.log, body); }
    case If(cond, tbranch, fbranch) =>
      LogSizeBound(r, sigma, G, L, l, cond);
      var o := InterpAction(r, sigma, G, L, l, cond);
      if o.Ok? { LogSizeBound(r, sigma, o.ctx, L, o.log, if Single(o.val) then tbranch else fbranch); }
    case Read(p, idx) => PushEvents(l, idx, Rd(p));
    case Write(p, idx, value) =>
      LogSizeBound(r, sigma, G, L, l, value);
      var o := InterpAction(r, sigma, G, L, l, value);
      if o.Ok? { PushEvents(o.log, idx, Wr(p, o.val)); }
    case Unop(_, arg) => LogSizeBound(r, sigma, G, L, l, arg);
    case Binop(_, arg1, arg2) =>
      LogSizeBound(r, sigma, G, L, l, arg1);
      var o := InterpAction(r, sigma, G, L, l, arg1);
      if o.Ok? { LogSizeBound(r, sigma, o.ctx, L, o.log, arg2); }
    case ExternalCall(_, arg) => LogSizeBound(r, sigma, G, L, l, arg);
    case InternalCall(_, args, body) =>
      ArgsLogSizeBound(r, sigma, G, L, l, args);
      var o := InterpArgs(r, sigma, G, L, l, args);
      if o.ArgsOk? { LogSizeBound(r, sigma, o.vals, L, o.log, body); }
    case APos(a) => LogSizeBound(r, sigma, G, L, l, a);
    case _ =>
  }

  lemma {:induction false} ArgsLogSizeBound(r: RegFile, sigma: ExtFun, G: Ctx, L: Log, l: Log, args: Args)
    requires ScopedArgs(args, |r|, |G|) && |L| == |l| == |r|
    ensures var o := InterpArgs(r, sigma, G, L, l, args);
            o.ArgsOk? ==> Events(o.log) <= Events(l) + ArgsLogSize(args)
    decreases args
  {
    match args
    case NoArgs =>
    case MoreArgs(_, _, arg, rest) =>
      ArgsLogSizeBound(r, sigma, G, L, l, rest);
      var o := InterpArgs(r, sigma, G, L, l, rest);
      if o.ArgsOk? { LogSizeBound(r, sigma, o.ctx, L, o.log, arg); }
  }

  /** In straight-line rules the two counts are exact: the source's bound is too
      small on every successful run exactly when a written value makes an access. */
  lemma {:induction false} LogSizeExact(r: RegFile, sigma: ExtFun, G: Ctx, L: Log, l: Log, a: Action)
    requires Straight(a) && Scoped(a, |r|, |G|) && |L| == |l| == |r|
    ensures var o := InterpAction(r, sigma, G, L, l, a);
            o.Ok? ==> Events(o.log) == Events(l) + RuleMaxLogSize(a) + ValueAccesses(a)
    decreases a
  {
    match a
    case Assign(_, _, ex) => LogSizeExact(r, sigma, G, L, l, ex);
    case Seq(r1, r2) =>
      LogSizeExact(r, sigma, G, L, l, r1);
      var o := InterpAction(r, sigma, G, L, l, r1);
      if o.Ok? { LogSizeExact(r, sigma, o.ctx, L, o.log, r2); }
    case Bind(_, _, ex, body) =>
      LogSizeExact(r, sigma, G, L, l, ex);
      var o := InterpAction(r, sigma, G, L, l, ex);
      if o.Ok? { LogSizeExact(r, sigma, [o.val] + o.ctx, L, o.log, body); }
    case Read(p, idx) => PushEvents(l, idx, Rd(p));
    case Write(p, idx, value) =>
      LogSizeExact(r, sigma, G, L, l, value);
      var o := InterpAction(r, sigma, G, L, l, value);
      if o.Ok? { PushEvents(o.log, idx, Wr(p, o.val)); }
    case Unop(_, arg) => LogSizeExact(r, sigma, G, L, l, arg);
    case Binop(_, arg1, arg2) =>
      LogSizeExact(r, sigma, G, L, l, arg1);
      var o := InterpAction(r, sigma, G, L, l, arg1);
      if o.Ok? { LogSizeExact(r, sigma, o.ctx, L, o.log, arg2); }
    case ExternalCall(_, arg) => LogSizeExact(r, sigma, G, L, l, arg);
    case InternalCall(_, args, body) =>
      ArgsLogSizeExact(r, sigma, G, L, l, args);
      var o := InterpArgs(r, sigma, G, L, l, args);
      if o.ArgsOk? { LogSizeExact(r, sigma, o.vals, L, o.log, body); }
    case APos(a) => LogSizeExact(r, sigma, G, L, l, a);
    case _ =>
  }

  lemma {:induction false} ArgsLogSizeExact(r: RegFile, sigma: ExtFun, G: Ctx, L: Log, l: Log, args: Args)
    requires StraightArgs(args) && ScopedArgs(args, |r|, |G|) && |L| == |l| == |r|
    ensures var o := InterpArgs(r, sigma, G, L, l, args);
            o.ArgsOk? ==> Events(o.log) == Events(l) + ArgsMaxLogSize(args) + ArgsValueAccesses(args)
    decreases args
  {
    match args
    case NoArgs =>
    case MoreArgs(_, _, arg, rest) =>
      ArgsLogSizeExact(r, sigma, G, L, l, rest);
      var o := InterpArgs(r, sigma, G, L, l, rest);
      if o.ArgsOk? { LogSizeExact(r, sigma, o.ctx, L, o.log, arg); }
  }

  /** One write of a register's own value: two accesses, room for one. */
  lemma {:induction false} LogSizeTooSmall(sigma: ExtFun)
    ensures var a, r: RegFile := Write(P0, 0, Read(P0, 0)), [[true]];
            var o := InterpAction(r, sigma, [], Empty(1), Empty(1), a);
            Scoped(a, 1, 0) && o.Ok? && Events(o.log) == 2 && RuleMaxLogSize(a) == 1
  {
    var r: RegFile := [[true]];
    var l: Log := Empty(1);
    assert InterpAction(r, sigma, [], l, l, Read(P0, 0)) == Ok(Push(l, 0, Rd(P0)), [true], []);
    assert MayWrite(l, Push(l, 0, Rd(P0)), P0, 0);
    PushEvents(l, 0, Rd(P0));
    PushEvents(Push(l, 0, Rd(P0)), 0, Wr(P0, [true]));
    assert Events(l) == 0 by { assert l[1..] == []; }
  }

  // ----- the counts are those of the longest walks -----

  ghost predicate IsLongest(n: nat, W: set<Walk>) { (forall w :: w in W ==> |w| <= n) && exists w :: w in W && |w| == n }

  lemma LongestJoined(m: nat, n: nat, X: set<Walk>, Y: set<Walk>)
    requires IsLongest(m, X) && IsLongest(n, Y)
    ensures IsLongest(m + n, Joined(X, Y))
  {
    var x :| x in X && |x| == m;
    var y :| y in Y && |y| == n;
    assert x + y in Joined(X, Y);
  }

  lemma LongestOfBoth(m: nat, n: nat, X: set<Walk>, Y: set<Walk>)
    requires IsLongest(m, X) && IsLongest(n, Y)
    ensures IsLongest(Max(m, n), X + Y)
  {
    var x :| x in X && |x| == m;
    var y :| y in Y && |y| == n;
    assert x in X + Y && y in X + Y;
  }

  lemma LongestOne(w: Walk)
    ensures IsLongest(|w|, {w})
  {
    assert w in {w};
  }

  /** The size of an action is the number of accesses on its longest walk. */
  lemma {:induction false} LogSizeIsLongest(a: Action)
    ensures IsLongest(LogSize(a), WalksOf(a))
    decreases a
  {
    hide IsLongest, Joined;
    match a
    case Fail(_) => LongestOne(NoAccess);
    case Var(_, _) => LongestOne(NoAccess);
    case Cst(_) => LongestOne(NoAccess);
    case Assign(_, _, ex) => LogSizeIsLongest(ex);
    case Seq(r1, r2) => LogSizeIsLongest(r1); LogSizeIsLongest(r2); LongestJoined(LogSize(r1), LogSize(r2), WalksOf(r1), WalksOf(r2));
    case Bind(_, _, ex, body) =>
      LogSizeIsLongest(ex);
      LogSizeIsLongest(body);
      LongestJoined(LogSize(ex), LogSize(body), WalksOf(ex), WalksOf(body));
    case If(cond, tbranch, fbranch) =>
      LogSizeIsLongest(cond);
      LogSizeIsLongest(tbranch);
      LogSizeIsLongest(fbranch);
      LongestOfBoth(LogSize(tbranch), LogSize(fbranch), WalksOf(tbranch), WalksOf(fbranch));
      LongestJoined(LogSize(cond), Max(LogSize(tbranch), LogSize(fbranch)), WalksOf(cond), WalksOf(tbranch) + WalksOf(fbranch));
    case Read(p, idx) => LongestOne([(idx, Reading(p))]);
    case Write(p, idx, value) =>
      LogSizeIsLongest(value);
      LongestOne([(idx, Writing(p))]);
      LongestJoined(LogSize(value), 1, WalksOf(value), {[(idx, Writing(p))]});
    case Unop(_, arg) => LogSizeIsLongest(arg);
    case Binop(_, arg1, arg2) =>
      LogSizeIsLongest(arg1);
      LogSizeIsLongest(arg2);
      LongestJoined(LogSize(arg1), LogSize(arg2), WalksOf(arg1), WalksOf(arg2));
    case ExternalCall(_, arg) => LogSizeIsLongest(arg);
    case InternalCall(_, args, body) =>
      ArgsLogSizeIsLongest(args);
      LogSizeIsLongest(body);
      LongestJoined(ArgsLogSize(args), LogSize(body), ArgWalks(args), WalksOf(body));
    case APos(a) => LogSizeIsLongest(a);
  }

  lemma {:induction false} ArgsLogSizeIsLongest(args: Args)
    ensures IsLongest(ArgsLogSize(args), ArgWalks(args))
    decreases args
  {
    hide IsLongest, Joined;
    match args
    case NoArgs => LongestOne(NoAccess);
    case MoreArgs(_, _, arg, rest) =>
      LogSizeIsLongest(arg);
      ArgsLogSizeIsLongest(rest);
      LongestJoined(LogSize(arg), ArgsLogSize(rest), WalksOf(arg), ArgWalks(rest));
  }

  /** The source's capacity is that of the rule without its written values. */
  lemma {:induction false} CapacityIsStripped(a: Action)
    ensures RuleMaxLogSize(a) == LogSize(Stripped(a))
    decreases a
  {
    match a
    case Assign(_, _, ex) => CapacityIsStripped(ex);
    case Seq(r1, r2) => CapacityIsStripped(r1); CapacityIsStripped(r2);
    case Bind(_, _, ex, body) => CapacityIsStripped(ex); CapacityIsStripped(body);
    case If(cond, tbranch, fbranch) => CapacityIsStripped(cond); CapacityIsStripped(tbranch); CapacityIsStripped(fbranch);
    case Unop(_, arg) => CapacityIsStripped(arg);
    case Binop(_, arg1, arg2) => CapacityIsStripped(arg1); CapacityIsStripped(arg2);
    case ExternalCall(_, arg) => CapacityIsStripped(arg);
    case InternalCall(_, args, body) => ArgsCapacityIsStripped(args); CapacityIsStripped(body);
    case APos(a) => CapacityIsStripped(a);
    case _ =>
  }

  lemma {:induction false} ArgsCapacityIsStripped(args: Args)
    ensures ArgsMaxLogSize(args) == ArgsLogSize(StrippedArgs(args))
    decreases args
  {
    match args
    case NoArgs =>
    case MoreArgs(_, _, arg, rest) => CapacityIsStripped(arg); ArgsCapacityIsStripped(rest);
  }

  /** So it is the number of accesses on the longest walk of the rule so stripped. */
  lemma {:induction false} CapacityExact(a: Action)
    ensures IsLongest(RuleMaxLogSize(a), WalksOf(Stripped(a)))
  {
    CapacityIsStripped(a);
    LogSizeIsLongest(Stripped(a));
  }
}
